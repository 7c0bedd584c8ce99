/** Following one Claude subagent transcript (`refresh_child` of src/claude.rs). */
module ClaudeChild {
  import opened Wrappers
  import opened Lines

  const TAIL_BYTES: nat := 256 * 1024

  function TailStart(length: nat): (from: nat)
    ensures from <= length <= from + 262_144 && (from > 0 ==> length == from + 262_144)
  {
    if length < TAIL_BYTES then 0 else length - TAIL_BYTES
  }

  /** A line that belongs to this child: its time, and whether it ends the turn. */
  datatype Event = Event(at: nat, terminal: bool)

  /** JSON parsing and the session, agent and kind filters; None skips the line. */
  type Parser = Bytes -> Option<Event>

  datatype Stamp = Stamp(inode: nat, length: nat, mtime: int)

  datatype Progress = Progress(started: nat, lastEvent: nat, finished: Option<nat>)

  datatype Child = Child(id: string, name: Option<string>, progress: Progress)

  datatype Cached = Cached(stamp: Stamp, offset: nat, retryAt: Option<nat>, child: Child)

  /** What the path holds now; no content means that it cannot be opened or read. */
  datatype Found = Missing | Special | Regular(stamp: Stamp, content: Option<Bytes>)

  // ---------------------------------------------------------------- one reading

  function Applied(child: Option<Progress>, e: Event): Progress {
    var finished := if e.terminal then Some(e.at) else None;
    match child
    case None => Progress(e.at, e.at, finished)
    case Some(p) =>
      if e.at < p.lastEvent then p
      else Progress(if p.finished.Some? then e.at else p.started, e.at, finished)
  }

  /** Where reading got to, and the time of the event it waits for. */
  datatype Reading = Reading(progress: Option<Progress>, offset: nat, retryAt: Option<nat>)

  /** Reads complete lines up to the first event stamped after `now`. */
  function Read(f: Bytes, from: nat, now: nat, child: Option<Progress>, parse: Parser): (r: Reading)
    requires from <= |f|
    ensures from <= r.offset <= |f|
    ensures child.Some? ==> r.progress.Some?
    decreases |f| - from
  {
    if !HasLine(f, from) then Reading(child, from, None)
    else
      var stop := LineStop(f, from);
      match parse(f[from..stop])
      case None => Read(f, stop, now, child, parse)
      case Some(e) =>
        if e.at > now then Reading(child, from, Some(e.at))
        else Read(f, stop, now, Some(Applied(child, e)), parse)
  }

  /** The first position at or after `base` that does not split a line; the end
      of the file when it shows no newline. */
  function StartOf(f: Bytes, base: nat): (from: nat)
    requires base <= |f|
    ensures base <= from <= |f| && (from == |f| || AtBoundary(f, from))
    ensures forall k | base <= k < from :: !AtBoundary(f, k)
  {
    if base == 0 || f[base - 1] == NEWLINE then base else LineStop(f, base)
  }

  function Min(a: nat, b: nat): nat { if a < b then a else b }
  function Max(a: nat, b: nat): nat { if a < b then b else a }

  // ---------------------------------------------------------------- one poll

  /** The entry may be shown without reading. */
  predicate Current(kept: Option<Cached>, id: string, stamp: Stamp, now: nat) {
    && kept.Some? && kept.value.stamp == stamp && kept.value.child.id == id
    && (kept.value.retryAt.None? || now < kept.value.retryAt.value)
  }

  /** Reading may go on where the entry stopped. */
  predicate Resumable(kept: Option<Cached>, id: string, stamp: Stamp) {
    && kept.Some? && kept.value.child.id == id && kept.value.stamp.inode == stamp.inode
    && (kept.value.stamp.length < stamp.length || (kept.value.stamp == stamp && kept.value.retryAt.Some?))
  }

  /** `consumed` is the first byte the poll left unread. */
  datatype Outcome = Outcome(kept: Option<Cached>, shown: Option<Child>, consumed: nat)

  /** Where a poll that has to read starts. */
  function Offset(kept: Option<Cached>, id: string, stamp: Stamp): nat {
    if Resumable(kept, id, stamp) then Max(kept.value.offset, TailStart(stamp.length)) else TailStart(stamp.length)
  }

  /** The byte before the offset has to be looked at. */
  predicate MidCheck(kept: Option<Cached>, id: string, stamp: Stamp) {
    Offset(kept, id, stamp) > 0 && !(Resumable(kept, id, stamp) && Offset(kept, id, stamp) == kept.value.offset)
  }

  function ProgressSoFar(kept: Option<Cached>, id: string, stamp: Stamp): Option<Progress> {
    if Resumable(kept, id, stamp) then Some(kept.value.child.progress) else None
  }

  /** The bytes a poll reads, from the start of the file for simplicity. */
  function Window(f: Bytes, offset: nat): (w: Bytes)
    requires offset <= |f|
    ensures |w| == Min(offset + TAIL_BYTES, |f|) && w == f[..|w|]
  {
    f[..Min(offset + TAIL_BYTES, |f|)]
  }

  /** What a poll keeps and shows after reading. */
  function Concluded(kept: Option<Cached>, id: string, stamp: Stamp, name: Option<string>, r: Reading): Outcome {
    if r.progress.None? then Outcome(kept, None, r.offset)
    else
      var child := Child(id, name, r.progress.value);
      Outcome(Some(Cached(stamp, r.offset, r.retryAt, child)), Some(child), r.offset)
  }

  function ReadingOf(kept: Option<Cached>, id: string, stamp: Stamp, f: Bytes, now: nat, parse: Parser): Reading {
    var offset := Offset(kept, id, stamp);
    if offset > |f| then Reading(ProgressSoFar(kept, id, stamp), offset, None)
    else
      var w := Window(f, offset);
      var from := if MidCheck(kept, id, stamp) then StartOf(w, offset) else offset;
      Read(w, from, now, ProgressSoFar(kept, id, stamp), parse)
  }

  function Refreshed(
    kept: Option<Cached>, id: string, found: Found, name: Option<string>, now: nat, parse: Parser): Outcome
  {
    match found
    case Missing => Outcome(kept, None, 0)
    case Special => Outcome(None, None, 0)
    case Regular(stamp, content) =>
      if Current(kept, id, stamp, now) then
        Concluded(kept, id, stamp, name,
            Reading(Some(kept.value.child.progress), kept.value.offset, kept.value.retryAt))
      else if content.None? || (MidCheck(kept, id, stamp) && Offset(kept, id, stamp) > |content.value|) then
        Outcome(kept, None, 0)
      else Concluded(kept, id, stamp, name, ReadingOf(kept, id, stamp, content.value, now, parse))
  }

  class ChildCache {
    var entries: map<string, Cached>

    constructor ()
      ensures entries == map[]
    {
      entries := map[];
    }

    function Kept(path: string): Option<Cached>
      reads this
    {
      if path in entries then Some(entries[path]) else None
    }

    /** `refresh_child`. */
    method RefreshChild(path: string, id: string, found: Found, name: Option<string>, now: nat, parse: Parser)
      returns (shown: Option<Child>)
      modifies this
      ensures shown == Refreshed(old(Kept(path)), id, found, name, now, parse).shown
      ensures Kept(path) == Refreshed(old(Kept(path)), id, found, name, now, parse).kept
      ensures entries - {path} == old(entries) - {path}
      ensures found.Missing? ==> shown.None? && entries == old(entries)
      ensures found.Special? ==> shown.None? && entries == old(entries) - {path}
      ensures shown.Some? ==> shown.value.id == id && shown.value.name == name
      ensures shown.Some? ==>
        path in entries && entries[path].child == shown.value && entries[path].stamp == found.stamp
      ensures found.Regular? && shown.None? ==> entries == old(entries)
    {
      if found.Missing? { return None; }
      if found.Special? {
        entries := entries - {path};
        return None;
      }
      var kept := Kept(path);
      if Current(kept, id, found.stamp, now) {
        entries := entries[path := kept.value.(child := kept.value.child.(name := name))];
        return Some(entries[path].child);
      }
      shown := Reread(path, id, found.stamp, found.content, name, now, parse);
    }

    method Reread(
      path: string, id: string, stamp: Stamp, content: Option<Bytes>, name: Option<string>, now: nat, parse: Parser)
      returns (shown: Option<Child>)
      requires !Current(Kept(path), id, stamp, now)
      modifies this
      ensures shown == Refreshed(old(Kept(path)), id, Regular(stamp, content), name, now, parse).shown
      ensures Kept(path) == Refreshed(old(Kept(path)), id, Regular(stamp, content), name, now, parse).kept
      ensures entries - {path} == old(entries) - {path} && (shown.None? ==> entries == old(entries))
    {
      if content.None? { return None; }
      var kept, f := Kept(path), content.value;
      var tail := TailStart(stamp.length);
      var offset := if Resumable(kept, id, stamp) then Max(kept.value.offset, tail) else tail;
      var checks := offset > 0 && !(Resumable(kept, id, stamp) && offset == kept.value.offset);
      if checks && offset > |f| { return None; }
      var progress, consumed, retryAt := ReadFrom(kept, id, stamp, f, now, parse);
      if progress.None? { return None; }
      var child := Child(id, name, progress.value);
      entries := entries[path := Cached(stamp, consumed, retryAt, child)];
      return Some(child);
    }

    /** Aligns to a line, then reads the window. */
    method ReadFrom(kept: Option<Cached>, id: string, stamp: Stamp, f: Bytes, now: nat, parse: Parser)
      returns (progress: Option<Progress>, consumed: nat, retryAt: Option<nat>)
      ensures Reading(progress, consumed, retryAt) == ReadingOf(kept, id, stamp, f, now, parse)
    {
      var offset := Offset(kept, id, stamp);
      progress, consumed, retryAt := ProgressSoFar(kept, id, stamp), offset, None;
      if offset <= |f| {
        var w := Window(f, offset);
        if MidCheck(kept, id, stamp) && w[offset - 1] != NEWLINE { consumed := LineStop(w, consumed); }
        progress, consumed, retryAt := ReadLines(w, consumed, now, progress, parse);
      }
    }

    /** The loop over the lines of the window. */
    method ReadLines(w: Bytes, from: nat, now: nat, child: Option<Progress>, parse: Parser)
      returns (progress: Option<Progress>, consumed: nat, retryAt: Option<nat>)
      requires from <= |w|
      ensures Reading(progress, consumed, retryAt) == Read(w, from, now, child, parse)
    {
      progress, consumed, retryAt := child, from, None;
      while HasLine(w, consumed)
        invariant consumed <= |w| && retryAt.None?
        invariant Read(w, consumed, now, progress, parse) == Read(w, from, now, child, parse)
        decreases |w| - consumed
      {
        var line := w[consumed..LineStop(w, consumed)];
        consumed := consumed + |line|;
        var event := parse(line);
        if event.None? { continue; }
        var timestamp := event.value.at;
        if timestamp > now {
          consumed := consumed - |line|;
          retryAt := Some(timestamp);
          break;
        }
        var current := progress.GetOr(Progress(timestamp, 0, None));
        if timestamp < current.lastEvent { continue; }
        if current.finished.Some? { current := current.(started := timestamp); }
        var finished := if event.value.terminal then Some(timestamp) else None;
        progress := Some(current.(lastEvent := timestamp, finished := finished));
      }
    }
  }

  // ---------------------------------------------------------------- many polls

  /** Reading the file once, from a tail offset chosen at the start. */
  function Whole(f: Bytes, base: nat, now: nat, parse: Parser): Reading
    requires base <= |f|
  {
    Read(f, StartOf(f, base), now, None, parse)
  }

  datatype Poll = Poll(stamp: Stamp, content: Bytes, name: Option<string>, now: nat)

  /** An append-only file under a clock that does not go back; a stamp changes
      exactly when the length does. */
  ghost predicate Growing(polls: seq<Poll>) {
    && (forall i | 0 <= i < |polls| :: polls[i].stamp.length <= |polls[i].content|)
    && (forall i | 0 < i < |polls| :: Grows(polls[i - 1], polls[i]))
  }

  ghost predicate Grows(p: Poll, q: Poll) {
    Appended(p, q) && (p.stamp.length == q.stamp.length ==> p.stamp == q.stamp)
  }

  /** The same file later, with nothing but new bytes at its end. */
  ghost predicate Appended(p: Poll, q: Poll) {
    && q.stamp.length <= |q.content| && Prefix(p.content, q.content[..q.stamp.length])
    && p.stamp.inode == q.stamp.inode && p.now <= q.now
  }

  function Polled(id: string, polls: seq<Poll>, parse: Parser): Outcome
    decreases |polls|
  {
    if polls == [] then Outcome(None, None, 0)
    else
      var p := polls[|polls| - 1];
      Refreshed(Polled(id, polls[..|polls| - 1], parse).kept, id, Regular(p.stamp, Some(p.content)), p.name, p.now,
          parse)
  }

  /** What has not been read when a poll starts lies inside its tail window. */
  ghost predicate InsideTail(id: string, polls: seq<Poll>, parse: Parser) {
    forall i | 0 < i < |polls| :: TailStart(polls[i].stamp.length) <= Polled(id, polls[..i], parse).consumed
  }

  /** Nothing is shown without progress, and the named child with it otherwise. */
  predicate Shows(shown: Option<Child>, id: string, name: Option<string>, progress: Option<Progress>) {
    match progress
    case None => shown.None?
    case Some(p) => shown == Some(Child(id, name, p))
  }

  /** The outcome is that of one reading of `f`. */
  ghost predicate Agrees(o: Outcome, id: string, p: Poll, seen: nat, base: nat, parse: Parser) {
    && p.stamp.length <= seen <= |p.content| && (base < seen || base == 0)
    && var r := Whole(p.content[..seen], base, p.now, parse);
       && Shows(o.shown, id, p.name, r.progress) && o.consumed == r.offset
       && o.kept == (match o.shown
                     case None => None
                     case Some(child) => Some(Cached(p.stamp, r.offset, r.retryAt, child)))
  }

  /** What is shown is the fold of this child's events in the complete lines that
      this poll saw, from some tail offset on, up to the first not due yet. */
  ghost predicate ShowsReading(shown: Option<Child>, id: string, q: Poll, seen: nat, base: nat, parse: Parser) {
    && q.stamp.length <= seen <= |q.content| && base <= seen
    && Shows(shown, id, q.name, Folded(None, DueEvents(q, seen, base, parse)))
  }

  /** This child's events as far as a poll saw the file, up to the first not due yet. */
  function DueEvents(q: Poll, seen: nat, base: nat, parse: Parser): seq<Event>
    requires base <= seen <= |q.content|
  {
    var f := q.content[..seen];
    Due(EventsOf(CompleteLines(f, StartOf(f, base)), parse), q.now)
  }

  lemma AgreesShows(o: Outcome, id: string, q: Poll, seen: nat, base: nat, parse: Parser)
    requires Agrees(o, id, q, seen, base, parse)
    ensures ShowsReading(o.shown, id, q, seen, base, parse)
  {
    WholeIsOneFold(q.content[..seen], base, q.now, parse);
  }

  /** Going on from where a reading stopped, later and in a longer file, is
      reading again from the start: postponed events are met exactly once. */
  lemma {:induction false} ReadExtends(
    g: Bytes, f: Bytes, from: nat, now: nat, later: nat, child: Option<Progress>, parse: Parser)
    requires Prefix(g, f) && from <= |g| && now <= later
    ensures var r := Read(g, from, now, child, parse);
      Read(f, r.offset, later, r.progress, parse) == Read(f, from, later, child, parse)
    decreases |g| - from
  {
    if HasLine(g, from) {
      LineStopExtends(g, f, from);
      var stop := LineStop(g, from);
      assert g[from..stop] == f[from..stop];
      var event := parse(g[from..stop]);
      if event.None? {
        ReadExtends(g, f, stop, now, later, child, parse);
      } else if event.value.at <= now {
        ReadExtends(g, f, stop, now, later, Some(Applied(child, event.value)), parse);
      }
    }
  }

  lemma StartInside(f: Bytes, base: nat, t: nat)
    requires base <= |f| && base <= t <= StartOf(f, base)
    ensures StartOf(f, t) == StartOf(f, base)
  {
    if base < t < StartOf(f, base) { LineStopInside(f, base, t); }
  }

  lemma StartExtends(g: Bytes, f: Bytes, base: nat)
    requires Prefix(g, f) && base <= |g|
    ensures StartOf(g, base) <= StartOf(f, base)
    ensures StartOf(g, base) < |g| ==> StartOf(f, base) == StartOf(g, base)
  {
    if !(base == 0 || g[base - 1] == NEWLINE) {
      LineStopGrows(g, f, base);
      if HasLine(g, base) { LineStopExtends(g, f, base); }
    }
  }

  /** Lines without an event of this child may be skipped. */
  lemma {:induction false} SkipLines(g: Bytes, f: Bytes, from: nat, t: nat, now: nat, later: nat, parse: Parser)
    requires Prefix(g, f) && from <= |g| && StartOf(f, from) == from
    requires Read(g, from, now, None, parse).progress.None? && from <= t <= Read(g, from, now, None, parse).offset
    ensures Read(f, StartOf(f, t), later, None, parse) == Read(f, from, later, None, parse)
    decreases |g| - from
  {
    if from < t {
      assert HasLine(g, from);
      LineStopExtends(g, f, from);
      var stop := LineStop(g, from);
      assert g[from..stop] == f[from..stop];
      assert parse(g[from..stop]).None?;
      if t < stop {
        LineStopInside(f, from, t);
      } else {
        SkipLines(g, f, stop, t, now, later, parse);
      }
    }
  }

  lemma WholeSkips(g: Bytes, f: Bytes, base: nat, t: nat, now: nat, later: nat, parse: Parser)
    requires Prefix(g, f) && base <= |g| && base <= t
    requires Whole(g, base, now, parse).progress.None? && t <= Whole(g, base, now, parse).offset
    ensures Whole(f, t, later, parse) == Whole(f, base, later, parse)
  {
    var p := StartOf(g, base);
    StartExtends(g, f, base);
    if t <= p {
      StartInside(f, base, t);
    } else {
      assert p < |g|;
      SkipLines(g, f, p, t, now, later, parse);
    }
  }

  lemma WholeExtends(g: Bytes, f: Bytes, base: nat, now: nat, later: nat, parse: Parser)
    requires Prefix(g, f) && base <= |g| && now <= later && Whole(g, base, now, parse).progress.Some?
    ensures var r := Whole(g, base, now, parse);
      Read(f, r.offset, later, r.progress, parse) == Whole(f, base, later, parse)
  {
    StartExtends(g, f, base);
    ReadExtends(g, f, StartOf(g, base), now, later, None, parse);
  }

  lemma {:induction false} NothingMore(f: Bytes, from: nat, now: nat, child: Option<Progress>, parse: Parser)
    requires from <= |f|
    ensures var r := Read(f, from, now, child, parse);
      Read(f, r.offset, now, r.progress, parse) == r
    ensures var r := Read(f, from, now, child, parse);
      if r.retryAt.None? then !HasLine(f, r.offset)
      else HasLine(f, r.offset) && parse(f[r.offset..LineStop(f, r.offset)]).Some?
           && parse(f[r.offset..LineStop(f, r.offset)]).value.at == r.retryAt.value
    decreases |f| - from
  {
    if HasLine(f, from) {
      var stop := LineStop(f, from);
      var event := parse(f[from..stop]);
      if event.None? {
        NothingMore(f, stop, now, child, parse);
      } else if event.value.at <= now {
        NothingMore(f, stop, now, Some(Applied(child, event.value)), parse);
      }
    }
  }

  /** An unchanged file read again before the postponed event is due. */
  lemma StillCurrent(f: Bytes, base: nat, now: nat, later: nat, parse: Parser)
    requires base <= |f| && now <= later && Whole(f, base, now, parse).progress.Some?
    requires var r := Whole(f, base, now, parse); r.retryAt.None? || later < r.retryAt.value
    ensures Whole(f, base, later, parse) == Whole(f, base, now, parse)
  {
    var r := Whole(f, base, now, parse);
    WholeExtends(f, f, base, now, later, parse);
    NothingMore(f, StartOf(f, base), now, None, parse);
    assert Read(f, r.offset, later, r.progress, parse) == r;
  }

  lemma CurrentPoll(o: Outcome, id: string, p: Poll, q: Poll, seen: nat, base: nat, parse: Parser)
    requires p.stamp.length <= |p.content| && Appended(p, q) && Agrees(o, id, p, seen, base, parse)
    requires Current(o.kept, id, q.stamp, q.now)
    ensures Agrees(Refreshed(o.kept, id, Regular(q.stamp, Some(q.content)), q.name, q.now, parse), id, q,
      q.stamp.length, base, parse)
  {
    assert p.stamp.length == q.stamp.length;
    assert p.content[..seen] == q.content[..q.stamp.length];
    StillCurrent(p.content[..seen], base, p.now, q.now, parse);
  }

  lemma ResumedReading(kept: Option<Cached>, id: string, stamp: Stamp, f: Bytes, now: nat, parse: Parser)
    requires Resumable(kept, id, stamp) && TailStart(stamp.length) <= kept.value.offset <= |f|
    ensures var k := kept.value;
      ReadingOf(kept, id, stamp, f, now, parse)
          == Read(Window(f, k.offset), k.offset, now, Some(k.child.progress), parse)
  {
  }

  lemma FreshReading(kept: Option<Cached>, id: string, stamp: Stamp, f: Bytes, now: nat, parse: Parser)
    requires !Resumable(kept, id, stamp) && TailStart(stamp.length) <= |f|
    ensures var t := TailStart(stamp.length);
      ReadingOf(kept, id, stamp, f, now, parse) == Whole(Window(f, t), t, now, parse)
  {
  }

  lemma WindowExtends(p: Poll, q: Poll, seen: nat, offset: nat)
    requires p.stamp.length <= seen <= |p.content| && Appended(p, q)
    requires TailStart(q.stamp.length) <= offset <= seen
    ensures Prefix(p.content[..seen], Window(q.content, offset))
    ensures q.stamp.length <= |Window(q.content, offset)|
  {
    assert q.content[..q.stamp.length][..|p.content|] == p.content;
  }

  lemma ResumedPoll(o: Outcome, id: string, p: Poll, q: Poll, seen: nat, base: nat, parse: Parser) returns (next: nat)
    requires p.stamp.length <= |p.content| && Appended(p, q) && Agrees(o, id, p, seen, base, parse)
    requires !Current(o.kept, id, q.stamp, q.now) && Resumable(o.kept, id, q.stamp)
    requires TailStart(q.stamp.length) <= o.consumed
    ensures Agrees(Refreshed(o.kept, id, Regular(q.stamp, Some(q.content)), q.name, q.now, parse), id, q, next, base,
      parse)
  {
    var g, w := p.content[..seen], Window(q.content, o.consumed);
    next := |w|;
    WindowExtends(p, q, seen, o.consumed);
    WholeExtends(g, w, base, p.now, q.now, parse);
    ResumedReading(o.kept, id, q.stamp, q.content, q.now, parse);
    assert ReadingOf(o.kept, id, q.stamp, q.content, q.now, parse) == Whole(w, base, q.now, parse);
  }

  lemma FreshPoll(o: Outcome, id: string, p: Poll, q: Poll, seen: nat, base: nat, parse: Parser) returns (next: nat)
    requires p.stamp.length <= |p.content| && Appended(p, q) && Agrees(o, id, p, seen, base, parse)
    requires o.kept.None? && base <= TailStart(q.stamp.length) <= o.consumed
    ensures Agrees(Refreshed(o.kept, id, Regular(q.stamp, Some(q.content)), q.name, q.now, parse), id, q, next, base,
      parse)
  {
    var t := TailStart(q.stamp.length);
    var g, w := p.content[..seen], Window(q.content, t);
    next := |w|;
    WindowExtends(p, q, seen, t);
    WholeSkips(g, w, base, t, p.now, q.now, parse);
    FreshReading(o.kept, id, q.stamp, q.content, q.now, parse);
  }

  /** One more poll, with the unread part inside its tail window. */
  lemma OneMorePoll(o: Outcome, id: string, p: Poll, q: Poll, seen: nat, base: nat, parse: Parser) returns (next: nat)
    requires p.stamp.length <= |p.content| && Grows(p, q) && Agrees(o, id, p, seen, base, parse)
    requires base <= TailStart(q.stamp.length) <= o.consumed
    ensures Agrees(Refreshed(o.kept, id, Regular(q.stamp, Some(q.content)), q.name, q.now, parse), id, q, next, base,
      parse)
  {
    if Current(o.kept, id, q.stamp, q.now) {
      CurrentPoll(o, id, p, q, seen, base, parse);
      next := q.stamp.length;
    } else if o.kept.Some? {
      next := ResumedPoll(o, id, p, q, seen, base, parse);
    } else {
      next := FreshPoll(o, id, p, q, seen, base, parse);
    }
  }

  lemma FewerPolls(id: string, polls: seq<Poll>, n: nat, parse: Parser)
    requires Growing(polls) && InsideTail(id, polls, parse) && 0 < n < |polls|
    ensures Growing(polls[..n]) && InsideTail(id, polls[..n], parse)
  {
    var fewer := polls[..n];
    assert forall i | 0 <= i < n :: fewer[i] == polls[i];
    forall i | 0 < i < |fewer| ensures TailStart(fewer[i].stamp.length) <= Polled(id, fewer[..i], parse).consumed {
      assert fewer[..i] == polls[..i];
    }
  }

  /** Polling agrees at every poll with reading the file once, from the tail
      offset of the first poll, as far as the last poll saw it. */
  lemma PollingReadsTheWhole(id: string, polls: seq<Poll>, parse: Parser) returns (seen: nat)
    requires polls != [] && Growing(polls) && InsideTail(id, polls, parse)
    ensures Agrees(Polled(id, polls, parse), id, polls[|polls| - 1], seen, TailStart(polls[0].stamp.length), parse)
    ensures ShowsReading(
      Polled(id, polls, parse).shown, id, polls[|polls| - 1], seen, TailStart(polls[0].stamp.length), parse)
  {
    seen := PollingAgrees(id, polls, parse);
    AgreesShows(Polled(id, polls, parse), id, polls[|polls| - 1], seen, TailStart(polls[0].stamp.length), parse);
  }

  lemma {:induction false} PollingAgrees(id: string, polls: seq<Poll>, parse: Parser) returns (seen: nat)
    requires polls != [] && Growing(polls) && InsideTail(id, polls, parse)
    ensures Agrees(Polled(id, polls, parse), id, polls[|polls| - 1], seen, TailStart(polls[0].stamp.length), parse)
    decreases |polls|
  {
    var n := |polls| - 1;
    if n == 0 {
      seen := FirstPoll(id, polls[n], parse);
      assert polls[..0] == [];
    } else {
      FewerPolls(id, polls, n, parse);
      var before := PollingAgrees(id, polls[..n], parse);
      LengthsGrow(polls, n);
      assert Grows(polls[n - 1], polls[n]);
      seen := OneMorePoll(Polled(id, polls[..n], parse), id, polls[n - 1], polls[n], before,
                          TailStart(polls[0].stamp.length), parse);
    }
  }

  lemma {:induction false} LengthsGrow(polls: seq<Poll>, i: nat)
    requires Growing(polls) && i < |polls|
    ensures polls[0].stamp.length <= polls[i].stamp.length
  {
    if i > 0 {
      LengthsGrow(polls, i - 1);
      assert Grows(polls[i - 1], polls[i]);
    }
  }

  lemma FirstPoll(id: string, q: Poll, parse: Parser) returns (seen: nat)
    requires q.stamp.length <= |q.content|
    ensures Agrees(Refreshed(None, id, Regular(q.stamp, Some(q.content)), q.name, q.now, parse), id, q, seen,
                   TailStart(q.stamp.length), parse)
  {
    seen := Min(TailStart(q.stamp.length) + TAIL_BYTES, |q.content|);
  }

  // ---------------------------------------------------------------- stamps that change by themselves

  /** The entry was left by one reading of what poll `p` saw. */
  ghost predicate AnchoredAt(kept: Option<Cached>, id: string, p: Poll, seen: nat, base: nat, parse: Parser) {
    && kept.Some? && p.stamp.length <= seen <= |p.content| && (base < seen || base == 0)
    && var r := Whole(p.content[..seen], base, p.now, parse);
       r.progress.Some?
       && kept.value == Cached(p.stamp, r.offset, r.retryAt, Child(id, kept.value.child.name, r.progress.value))
  }

  /** The entry is missing, of another child or another file, or of the same file
      longer than now or rewritten since. */
  predicate NotThatFile(kept: Option<Cached>, id: string, stamp: Stamp) {
    || kept.None? || kept.value.child.id != id || kept.value.stamp.inode != stamp.inode
    || stamp.length < kept.value.stamp.length
    || (stamp.length == kept.value.stamp.length && stamp.mtime != kept.value.stamp.mtime)
  }

  /** Every other entry is shown or read on. */
  lemma SameFileGoesOn(kept: Option<Cached>, id: string, stamp: Stamp, now: nat)
    ensures NotThatFile(kept, id, stamp) <==> !Current(kept, id, stamp, now) && !Resumable(kept, id, stamp)
  {
  }

  /** A poll that may neither show its entry nor go on from it starts over at the
      tail: a modification time changed without growth, another file in its place,
      or a shorter one.  It forgets the entry only when it finds the child again. */
  lemma StartsOver(kept: Option<Cached>, id: string, q: Poll, parse: Parser) returns (seen: nat)
    requires q.stamp.length <= |q.content| && NotThatFile(kept, id, q.stamp)
    ensures var o := Refreshed(kept, id, Regular(q.stamp, Some(q.content)), q.name, q.now, parse);
      && ShowsReading(o.shown, id, q, seen, TailStart(q.stamp.length), parse)
      && (if o.shown.Some? then AnchoredAt(o.kept, id, q, seen, TailStart(q.stamp.length), parse) else o.kept == kept)
  {
    seen := |Window(q.content, TailStart(q.stamp.length))|;
    SameFileGoesOn(kept, id, q.stamp, q.now);
    FreshReading(kept, id, q.stamp, q.content, q.now, parse);
    WholeIsOneFold(q.content[..seen], TailStart(q.stamp.length), q.now, parse);
  }

  /** One poll of an entry left by an earlier poll of the same file. */
  lemma AnyPoll(kept: Option<Cached>, id: string, p: Poll, q: Poll, seen: nat, base: nat, parse: Parser)
    returns (next: nat, start: nat)
    requires q.stamp.length <= |q.content|
    requires kept.Some? ==>
      p.stamp.length <= |p.content| && Appended(p, q) && AnchoredAt(kept, id, p, seen, base, parse)
    requires GoesOnInsideTail(kept, id, q)
    ensures var o := Refreshed(kept, id, Regular(q.stamp, Some(q.content)), q.name, q.now, parse);
      && ShowsReading(o.shown, id, q, next, start, parse)
      && (if o.shown.Some? then AnchoredAt(o.kept, id, q, next, start, parse) else o.kept == kept)
    ensures start in {base, TailStart(q.stamp.length)}
  {
    if Current(kept, id, q.stamp, q.now) || Resumable(kept, id, q.stamp) {
      var named := p.(name := kept.value.child.name);
      var o := Outcome(kept, Some(kept.value.child), kept.value.offset);
      assert Agrees(o, id, named, seen, base, parse) && Appended(named, q);
      start := base;
      if Current(kept, id, q.stamp, q.now) {
        CurrentPoll(o, id, named, q, seen, base, parse);
        next := q.stamp.length;
      } else {
        next := ResumedPoll(o, id, named, q, seen, base, parse);
      }
      AgreesShows(Refreshed(kept, id, Regular(q.stamp, Some(q.content)), q.name, q.now, parse), id, q, next, base,
          parse);
    } else {
      start := TailStart(q.stamp.length);
      next := StartsOver(kept, id, q, parse);
    }
  }

  /** What is unread when a poll goes on from an entry lies inside its tail window. */
  predicate GoesOnInsideTail(kept: Option<Cached>, id: string, q: Poll) {
    Resumable(kept, id, q.stamp) && !Current(kept, id, q.stamp, q.now) ==>
      TailStart(q.stamp.length) <= kept.value.offset
  }

  ghost predicate OnlyAppended(polls: seq<Poll>) {
    && (forall i | 0 <= i < |polls| :: polls[i].stamp.length <= |polls[i].content|)
    && (forall i, j | 0 <= i < j < |polls| :: Appended(polls[i], polls[j]))
  }

  ghost predicate AllGoOnInsideTail(id: string, polls: seq<Poll>, parse: Parser) {
    forall i | 0 <= i < |polls| :: GoesOnInsideTail(Polled(id, polls[..i], parse).kept, id, polls[i])
  }

  /** The offset is the tail offset of some of the polls. */
  ghost predicate TailOfSome(polls: seq<Poll>, base: nat) {
    exists i :: 0 <= i < |polls| && base == TailStart(polls[i].stamp.length)
  }

  /** An entry was left by a reading of some poll, from the tail offset of some poll. */
  ghost predicate LeftBySome(
    kept: Option<Cached>, id: string, polls: seq<Poll>, k: nat, seen: nat, base: nat, parse: Parser)
  {
    kept.Some? ==> k < |polls| && AnchoredAt(kept, id, polls[k], seen, base, parse) && TailOfSome(polls, base)
  }

  lemma LeftByMore(kept: Option<Cached>, id: string, polls: seq<Poll>, n: nat, k: nat, seen: nat, base: nat,
                   parse: Parser)
    requires n < |polls| && LeftBySome(kept, id, polls[..n], k, seen, base, parse)
    ensures LeftBySome(kept, id, polls, k, seen, base, parse) && (kept.Some? ==> k < n)
  {
    if kept.Some? {
      var i :| 0 <= i < n && base == TailStart(polls[..n][i].stamp.length);
      assert polls[..n][i] == polls[i] && polls[..n][k] == polls[k];
    }
  }

  lemma FewerAppended(id: string, polls: seq<Poll>, n: nat, parse: Parser)
    requires OnlyAppended(polls) && AllGoOnInsideTail(id, polls, parse) && n <= |polls|
    ensures OnlyAppended(polls[..n]) && AllGoOnInsideTail(id, polls[..n], parse)
  {
    var fewer := polls[..n];
    forall i | 0 <= i < n ensures GoesOnInsideTail(Polled(id, fewer[..i], parse).kept, id, fewer[i]) {
      assert fewer[i] == polls[i] && fewer[..i] == polls[..i];
    }
  }

  /** Whatever becomes of its modification times, every poll of a file that is only
      appended to shows one reading, from the tail offset of some poll so far; and
      the entry it leaves was left by a reading of some poll so far. */
  lemma {:induction false} EveryPollIsOneReading(id: string, polls: seq<Poll>, parse: Parser)
    returns (seen: nat, base: nat, k: nat, seenThen: nat, baseThen: nat)
    requires polls != [] && OnlyAppended(polls) && AllGoOnInsideTail(id, polls, parse)
    ensures ShowsReading(Polled(id, polls, parse).shown, id, polls[|polls| - 1], seen, base, parse)
    ensures TailOfSome(polls, base)
    ensures LeftBySome(Polled(id, polls, parse).kept, id, polls, k, seenThen, baseThen, parse)
    decreases |polls|
  {
    var n := |polls| - 1;
    var fewer, q := polls[..n], polls[n];
    var kept := Polled(id, fewer, parse).kept;
    assert GoesOnInsideTail(kept, id, q);
    assert TailOfSome(polls, TailStart(q.stamp.length));
    k, seenThen, baseThen := 0, 0, 0;
    if n > 0 {
      FewerAppended(id, polls, n, parse);
      var _, _, k0, seen0, base0 := EveryPollIsOneReading(id, fewer, parse);
      k, seenThen, baseThen := k0, seen0, base0;
      LeftByMore(kept, id, polls, n, k, seenThen, baseThen, parse);
    }
    seen, base := OneOfMany(kept, id, polls, k, seenThen, baseThen, parse);
    if Polled(id, polls, parse).shown.Some? { k, seenThen, baseThen := n, seen, base; }
  }

  lemma OneOfMany(kept: Option<Cached>, id: string, polls: seq<Poll>, k: nat, seenThen: nat, baseThen: nat,
                  parse: Parser) returns (seen: nat, base: nat)
    requires polls != [] && OnlyAppended(polls) && GoesOnInsideTail(kept, id, polls[|polls| - 1])
    requires LeftBySome(kept, id, polls, k, seenThen, baseThen, parse) && (kept.Some? ==> k < |polls| - 1)
    requires TailOfSome(polls, TailStart(polls[|polls| - 1].stamp.length))
    ensures var q := polls[|polls| - 1];
      var o := Refreshed(kept, id, Regular(q.stamp, Some(q.content)), q.name, q.now, parse);
      && ShowsReading(o.shown, id, q, seen, base, parse)
      && (if o.shown.Some? then AnchoredAt(o.kept, id, q, seen, base, parse) else o.kept == kept)
      && TailOfSome(polls, base)
  {
    var q := polls[|polls| - 1];
    if kept.Some? {
      seen, base := AnyPoll(kept, id, polls[k], q, seenThen, baseThen, parse);
    } else {
      seen, base := AnyPoll(kept, id, q, q, seenThen, TailStart(q.stamp.length), parse);
    }
  }

  // ---------------------------------------------------------------- what one reading says

  function EventsOf(lines: seq<Bytes>, parse: Parser): seq<Event> {
    if lines == [] then []
    else Parsed(lines[0], parse) + EventsOf(lines[1..], parse)
  }

  function Parsed(line: Bytes, parse: Parser): seq<Event> {
    if parse(line).Some? then [parse(line).value] else []
  }

  /** The events are those the lines parse to, in order, and no others. */
  lemma {:induction false} EventsInOrder(lines: seq<Bytes>, line: Bytes, parse: Parser)
    ensures EventsOf(lines + [line], parse) ==
      EventsOf(lines, parse) + match parse(line) case Some(e) => [e] case None => []
    decreases |lines|
  {
    var more, last := lines + [line], Parsed(line, parse);
    if lines == [] {
      assert more == [line] && more[1..] == [];
      assert EventsOf([], parse) == [];
    } else {
      var rest := lines[1..];
      assert more[0] == lines[0] && more[1..] == rest + [line];
      EventsInOrder(rest, line, parse);
      assert EventsOf(more, parse) == Parsed(lines[0], parse) + (EventsOf(rest, parse) + last);
    }
  }

  /** The events before the first that is stamped after `now`. */
  function Due(events: seq<Event>, now: nat): (d: seq<Event>)
    ensures |d| <= |events| && d == events[..|d|]
    ensures forall e | e in d :: e.at <= now
    ensures |d| < |events| ==> events[|d|].at > now
  {
    if events == [] || events[0].at > now then [] else [events[0]] + Due(events[1..], now)
  }

  function Folded(child: Option<Progress>, events: seq<Event>): Option<Progress>
    decreases |events|
  {
    if events == [] then child else Folded(Some(Applied(child, events[0])), events[1..])
  }

  lemma FirstEvent(f: Bytes, from: nat, parse: Parser)
    requires from <= |f| && HasLine(f, from)
    ensures var event, rest := parse(f[from..LineStop(f, from)]), EventsOf(CompleteLines(f, LineStop(f, from)), parse);
      EventsOf(CompleteLines(f, from), parse) == if event.None? then rest else [event.value] + rest
  {
    var lines := CompleteLines(f, from);
    assert lines[0] == f[from..LineStop(f, from)] && lines[1..] == CompleteLines(f, LineStop(f, from));
  }

  lemma FirstDue(e: Event, rest: seq<Event>, now: nat)
    ensures Due([e] + rest, now) == if e.at > now then [] else [e] + Due(rest, now)
  {
    assert ([e] + rest)[1..] == rest;
  }

  lemma FoldedFirst(child: Option<Progress>, e: Event, rest: seq<Event>)
    ensures Folded(child, [e] + rest) == Folded(Some(Applied(child, e)), rest)
  {
    assert ([e] + rest)[1..] == rest;
  }

  lemma {:induction false} ReadFolds(f: Bytes, from: nat, now: nat, child: Option<Progress>, parse: Parser)
    requires from <= |f|
    ensures var events := EventsOf(CompleteLines(f, from), parse);
      var r := Read(f, from, now, child, parse);
      && r.progress == Folded(child, Due(events, now))
      && r.retryAt == (if |Due(events, now)| < |events| then Some(events[|Due(events, now)|].at) else None)
    decreases |f| - from
  {
    if HasLine(f, from) {
      var stop := LineStop(f, from);
      var event, rest := parse(f[from..stop]), EventsOf(CompleteLines(f, stop), parse);
      FirstEvent(f, from, parse);
      if event.None? {
        ReadFolds(f, stop, now, child, parse);
      } else {
        FirstDue(event.value, rest, now);
        if event.value.at <= now {
          ReadFolds(f, stop, now, Some(Applied(child, event.value)), parse);
          FoldedFirst(child, event.value, Due(rest, now));
        }
      }
    }
  }

  /** One reading folds this child's events in complete lines from the tail
      boundary on, up to the first stamped after `now`, and waits for that one. */
  lemma WholeIsOneFold(f: Bytes, base: nat, now: nat, parse: Parser)
    requires base <= |f|
    ensures var events := EventsOf(CompleteLines(f, StartOf(f, base)), parse);
      var r := Whole(f, base, now, parse);
      && r.progress == Folded(None, Due(events, now))
      && (r.retryAt.None? <==> Due(events, now) == events)
  {
    ReadFolds(f, StartOf(f, base), now, None, parse);
  }

  /** Event `i` is the last one with the greatest stamp. */
  ghost predicate Latest(events: seq<Event>, i: nat) {
    && i < |events|
    && forall j | 0 <= j < |events| :: events[j].at <= events[i].at && (j > i ==> events[j].at < events[i].at)
  }

  lemma {:induction false} FoldedOneMore(child: Option<Progress>, events: seq<Event>, e: Event)
    ensures Folded(child, events + [e]) == Some(Applied(Folded(child, events), e))
    decreases |events|
  {
    if events == [] {
      assert ([] + [e])[1..] == [];
    } else {
      assert (events + [e])[1..] == events[1..] + [e];
      FoldedOneMore(Some(Applied(child, events[0])), events[1..], e);
    }
  }

  /** The child is finished exactly when its latest event ends the turn. */
  lemma {:induction false} LatestDecides(events: seq<Event>) returns (i: nat)
    requires events != []
    ensures Latest(events, i)
    ensures var folded := Folded(None, events);
      && folded.Some? && folded.value.lastEvent == events[i].at
      && folded.value.finished == (if events[i].terminal then Some(events[i].at) else None)
      && folded.value.started <= folded.value.lastEvent
    decreases |events|
  {
    var n := |events| - 1;
    assert events == events[..n] + [events[n]];
    FoldedOneMore(None, events[..n], events[n]);
    if n == 0 {
      i := 0;
    } else {
      var k := LatestDecides(events[..n]);
      i := if events[n].at < events[k].at then k else n;
      forall j | 0 <= j < n ensures events[j].at <= events[k].at && (j > k ==> events[j].at < events[k].at) {
        assert events[..n][j] == events[j];
      }
    }
  }

  predicate EndsWith(p: Progress, e: Event) {
    p.lastEvent == e.at && p.finished == if e.terminal then Some(e.at) else None
  }

  /** So a child is shown exactly when some event of it is due, and shown as finished
      exactly when the latest of these ends the turn. */
  lemma ShownIsFinished(shown: Option<Child>, id: string, q: Poll, seen: nat, base: nat, parse: Parser)
    requires ShowsReading(shown, id, q, seen, base, parse)
    ensures var due := DueEvents(q, seen, base, parse);
      && (shown.None? <==> due == [])
      && (shown.Some? ==> exists i: nat :: Latest(due, i) && EndsWith(shown.value.progress, due[i]))
  {
    var due := DueEvents(q, seen, base, parse);
    if due != [] { var i := LatestDecides(due); }
  }

  /** Event `i` is not older than any event before it; others are skipped. */
  ghost predicate Accepted(events: seq<Event>, i: nat) {
    i < |events| && forall j | 0 <= j < i :: events[j].at <= events[i].at
  }

  /** Nothing came before event `i`, or the latest event before it ended the turn. */
  ghost predicate BeginsTurn(events: seq<Event>, i: nat) {
    Accepted(events, i) && (i == 0 || exists k: nat :: Latest(events[..i], k) && events[k].terminal)
  }

  lemma LatestIsOne(events: seq<Event>, i: nat, j: nat)
    requires Latest(events, i) && Latest(events, j)
    ensures i == j
  {
    assert events[i].at <= events[j].at <= events[i].at;
  }

  /** The child's start is the time of the last event that began a turn. */
  lemma {:induction false} StartedAtLastTurn(events: seq<Event>) returns (i: nat)
    requires events != []
    ensures BeginsTurn(events, i) && forall j: nat | i < j < |events| :: !BeginsTurn(events, j)
    ensures Folded(None, events).Some? && Folded(None, events).value.started == events[i].at
    decreases |events|
  {
    var n := |events| - 1;
    assert events == events[..n] + [events[n]];
    FoldedOneMore(None, events[..n], events[n]);
    if n == 0 {
      i := 0;
    } else {
      var before := StartedAtLastTurn(events[..n]);
      var k := LatestDecides(events[..n]);
      assert Accepted(events, n) <==> events[n].at >= events[k].at by {
        assert events[..n][k] == events[k];
        assert forall j | 0 <= j < n :: events[..n][j] == events[j];
      }
      TurnAtEnd(events, k);
      i := if BeginsTurn(events, n) then n else before;
      TurnsOfPrefix(events, n);
      assert BeginsTurn(events[..n], before);
    }
  }

  lemma TurnAtEnd(events: seq<Event>, k: nat)
    requires |events| > 1 && Latest(events[..|events| - 1], k)
    ensures var n := |events| - 1; BeginsTurn(events, n) <==> Accepted(events, n) && events[k].terminal
  {
    var n := |events| - 1;
    if BeginsTurn(events, n) {
      var m: nat :| Latest(events[..n], m) && events[m].terminal;
      LatestIsOne(events[..n], m, k);
    }
  }

  lemma TurnsOfPrefix(events: seq<Event>, n: nat)
    requires n <= |events|
    ensures forall j: nat | j < n :: BeginsTurn(events[..n], j) <==> BeginsTurn(events, j)
  {
    forall j: nat | j < n ensures BeginsTurn(events[..n], j) <==> BeginsTurn(events, j) {
      var fewer := events[..n];
      assert fewer[..j] == events[..j];
      assert forall m | 0 <= m < n :: fewer[m] == events[m];
      assert Accepted(fewer, j) <==> Accepted(events, j);
      assert forall m: nat | Latest(events[..j], m) :: fewer[m].terminal == events[m].terminal;
    }
  }
}
