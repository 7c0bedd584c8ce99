/** Following an append-only Codex rollout log (`CachedRollout` of src/codex.rs). */
module Rollout {
  import opened Wrappers
  import opened Lines

  datatype Lifecycle = Active | Finished

  /** What one JSON line says; an event without a timestamp is possible. */
  datatype Event = Event(timestamp: Option<nat>, lifecycle: Option<Lifecycle>)

  /** The foreign parts of reading a line: UTF-8 decoding and JSON parsing. */
  datatype Reader = Reader(decodable: Bytes -> bool, parse: Bytes -> Option<Event>)

  const INITIAL_TAIL_BYTES: nat := 1024 * 1024
  const ACTIVE_STALE_MS: nat := 30 * 60 * 1000

  function TailStart(length: nat): (from: nat)
    ensures from <= length <= from + 1_048_576 && (from > 0 ==> length == from + 1_048_576)
  {
    if length < INITIAL_TAIL_BYTES then 0 else length - INITIAL_TAIL_BYTES
  }

  // ---------------------------------------------------------------- what is accumulated

  datatype Summary = Summary(lifecycle: Option<(nat, Lifecycle)>, lastEvent: nat)

  function Empty(startedAt: nat): Summary { Summary(None, startedAt) }

  function Absorb(s: Summary, event: Option<Event>, startedAt: nat): Summary {
    if event.None? then s
    else
      var at := event.value.timestamp;
      var last := if at.Some? && at.value > s.lastEvent then at.value else s.lastEvent;
      var stamp := at.GetOr(startedAt);
      if event.value.lifecycle.Some? && (s.lifecycle.None? || stamp >= s.lifecycle.value.0)
      then Summary(Some((stamp, event.value.lifecycle.value)), last)
      else Summary(s.lifecycle, last)
  }

  // ---------------------------------------------------------------- one refresh

  /** The mutable part of a cached rollout. */
  datatype Position = Position(offset: nat, aligned: bool, summary: Summary)

  function Opened(length: nat, startedAt: nat): Position {
    Position(TailStart(length), TailStart(length) == 0, Empty(startedAt))
  }

  /** Reads complete lines until one is missing or is not UTF-8. */
  function Consume(f: Bytes, from: nat, s: Summary, startedAt: nat, reader: Reader): (p: Position)
    requires from <= |f|
    ensures from <= p.offset <= |f| && p.aligned
    decreases |f| - from
  {
    if HasLine(f, from) && reader.decodable(f[from..LineStop(f, from)]) then
      var stop := LineStop(f, from);
      Consume(f, stop, Absorb(s, reader.parse(f[from..stop]), startedAt), startedAt, reader)
    else Position(from, true, s)
  }

  lemma ConsumeLine(f: Bytes, from: nat, s: Summary, startedAt: nat, reader: Reader)
    requires from <= |f| && HasLine(f, from) && reader.decodable(f[from..LineStop(f, from)])
    ensures var stop := LineStop(f, from);
      Consume(f, from, s, startedAt, reader)
      == Consume(f, stop, Absorb(s, reader.parse(f[from..stop]), startedAt), startedAt, reader)
  {
  }

  function Refreshed(p: Position, f: Bytes, length: nat, startedAt: nat, reader: Reader): Position
    requires length <= |f|
  {
    var q := if length < p.offset then Opened(length, startedAt) else p;
    if length == q.offset then q
    else
      var from := if q.aligned then Some(q.offset) else Boundary(f, q.offset);
      if from.None? then q else Consume(f, from.value, q.summary, startedAt, reader)
  }

  /** What is left where reading stops is nothing, or the UTF-8 start of a line. */
  predicate Readable(f: Bytes, from: nat, reader: Reader)
    requires from <= |f|
  {
    from == |f| || reader.decodable(f[from..LineStop(f, from)])
  }

  /** A refresh reports success. */
  predicate Succeeds(p: Position, f: Bytes, length: nat, startedAt: nat, reader: Reader)
    requires length <= |f|
  {
    var q := if length < p.offset then Opened(length, startedAt) else p;
    if length == q.offset then true
    else
      var from := if q.aligned then Some(q.offset) else Boundary(f, q.offset);
      from.None? || Readable(f, Consume(f, from.value, q.summary, startedAt, reader).offset, reader)
  }

  class CachedRollout {
    const startedAt: nat
    var offset: nat
    var aligned: bool
    var lifecycle: Option<(nat, Lifecycle)>
    var lastEvent: nat

    ghost function State(): Position
      reads this
    {
      Position(offset, aligned, Summary(lifecycle, lastEvent))
    }

    /** The start of the file is a line boundary. */
    ghost predicate Valid()
      reads this
    {
      offset == 0 ==> aligned
    }

    /** `open`: nothing is followed unless the first refresh succeeds. */
    static method Open(firstLength: nat, f: Bytes, length: nat, startedAt: nat, reader: Reader)
      returns (cached: CachedRollout?)
      requires length <= |f|
      ensures cached != null <==> Succeeds(Opened(firstLength, startedAt), f, length, startedAt, reader)
      ensures cached != null ==> fresh(cached) && cached.Valid() && cached.startedAt == startedAt
      ensures cached != null ==>
        cached.State() == Refreshed(Opened(firstLength, startedAt), f, length, startedAt, reader)
    {
      var opening := new CachedRollout(firstLength, startedAt);
      var ok := opening.Refresh(f, length, reader);
      cached := if ok then opening else null;
    }

    /** The state before the first refresh. */
    constructor (length: nat, startedAt: nat)
      ensures Valid() && this.startedAt == startedAt && State() == Opened(length, startedAt)
    {
      this.startedAt := startedAt;
      offset, aligned := TailStart(length), TailStart(length) == 0;
      lifecycle, lastEvent := None, startedAt;
    }

    /** `refresh`: `length` is the size asked for first, `f` what reading finds;
        the file may have grown in between. */
    method Refresh(f: Bytes, length: nat, reader: Reader) returns (ok: bool)
      requires Valid() && length <= |f|
      modifies this
      ensures Valid() && State() == Refreshed(old(State()), f, length, startedAt, reader)
      ensures ok == Succeeds(old(State()), f, length, startedAt, reader)
    {
      if length < offset {
        offset, aligned := TailStart(length), TailStart(length) == 0;
        lifecycle, lastEvent := None, startedAt;
      }
      if length == offset { return true; }
      var found := Align(f);
      if !found { return true; }
      ok := ReadLines(f, reader);
    }

    /** Skips the rest of a line that started before the tail. */
    method Align(f: Bytes) returns (found: bool)
      requires Valid() && offset < |f|
      modifies this`offset, this`aligned
      ensures found == (old(aligned) || Boundary(f, old(offset)).Some?)
      ensures aligned == found && (!found ==> offset == old(offset))
      ensures found ==> offset == if old(aligned) then old(offset) else Boundary(f, old(offset)).value
    {
      if !aligned {
        if f[offset - 1] != NEWLINE {
          var stop := LineStop(f, offset);
          if f[stop - 1] != NEWLINE { return false; }
          offset := stop;
        }
        aligned := true;
      }
      return true;
    }

    /** The read loop of `refresh`. */
    method ReadLines(f: Bytes, reader: Reader) returns (ok: bool)
      requires aligned && offset <= |f|
      modifies this
      ensures State() == Consume(f, old(offset), old(State()).summary, startedAt, reader)
      ensures offset <= |f| && ok == Readable(f, offset, reader)
    {
      ghost var result := Consume(f, offset, State().summary, startedAt, reader);
      while offset < |f|
        invariant offset <= |f| && aligned
        invariant Consume(f, offset, State().summary, startedAt, reader) == result
        decreases |f| - offset
      {
        var stop := LineStop(f, offset);
        var line := f[offset..stop];
        if !reader.decodable(line) { return false; }
        if line[|line| - 1] != NEWLINE { return true; }
        ConsumeLine(f, offset, State().summary, startedAt, reader);
        offset := stop;
        var event := reader.parse(line);
        if event.Some? { Take(event.value); }
      }
      return true;
    }

    /** What one parsed line changes. */
    method Take(event: Event)
      modifies this`lifecycle, this`lastEvent
      ensures State().summary == Absorb(old(State()).summary, Some(event), startedAt)
    {
      if event.timestamp.Some? && event.timestamp.value > lastEvent { lastEvent := event.timestamp.value; }
      if event.lifecycle.None? { return; }
      var stamp := event.timestamp.GetOr(startedAt);
      if lifecycle.None? || stamp >= lifecycle.value.0 { lifecycle := Some((stamp, event.lifecycle.value)); }
    }
  }

  // ---------------------------------------------------------------- any schedule

  /** Reading the whole file once, from the tail offset chosen at the start. */
  function Whole(f: Bytes, base: nat, startedAt: nat, reader: Reader): (p: Position)
    requires base <= |f|
    ensures base <= p.offset <= |f| && p.aligned == Boundary(f, base).Some?
  {
    match Boundary(f, base)
    case None => Position(base, false, Empty(startedAt))
    case Some(from) => Consume(f, from, Empty(startedAt), startedAt, reader)
  }

  /** Polls of one growing file, opened when it had `firstLength` bytes:
      sizes asked for and contents then read. */
  datatype Poll = Poll(length: nat, content: Bytes)

  ghost predicate Growing(polls: seq<Poll>) {
    && (forall i | 0 <= i < |polls| :: polls[i].length <= |polls[i].content|)
    && (forall i, j | 0 <= i < j < |polls| && j == i + 1 ::
          Prefix(polls[i].content, polls[j].content[..polls[j].length]))
  }

  /** The follower after the first `n` polls. */
  ghost function Followed(firstLength: nat, polls: seq<Poll>, n: nat, startedAt: nat, reader: Reader): Position
    requires Growing(polls) && 0 < n <= |polls|
    decreases n
  {
    var before := if n == 1 then Opened(firstLength, startedAt)
                  else Followed(firstLength, polls, n - 1, startedAt, reader);
    Refreshed(before, polls[n - 1].content, polls[n - 1].length, startedAt, reader)
  }

  /** Stopping at a shorter file and going on later loses and repeats nothing. */
  lemma {:induction false} ConsumeExtends(g: Bytes, f: Bytes, from: nat, s: Summary, startedAt: nat, reader: Reader)
    requires Prefix(g, f) && from <= |g|
    ensures var p := Consume(g, from, s, startedAt, reader);
      Consume(f, p.offset, p.summary, startedAt, reader) == Consume(f, from, s, startedAt, reader)
    decreases |g| - from
  {
    if HasLine(g, from) && reader.decodable(g[from..LineStop(g, from)]) {
      LineStopExtends(g, f, from);
      var stop := LineStop(g, from);
      assert g[from..stop] == f[from..stop];
      ConsumeExtends(g, f, stop, Absorb(s, reader.parse(g[from..stop]), startedAt), startedAt, reader);
    }
  }

  lemma WholeExtends(g: Bytes, f: Bytes, base: nat, startedAt: nat, reader: Reader)
    requires Prefix(g, f) && (base < |g| || base == 0) && Boundary(g, base).Some?
    ensures var p := Whole(g, base, startedAt, reader);
      Consume(f, p.offset, p.summary, startedAt, reader) == Whole(f, base, startedAt, reader)
  {
    if base > 0 && g[base - 1] != NEWLINE { LineStopExtends(g, f, base); }
    assert Boundary(f, base) == Boundary(g, base);
    ConsumeExtends(g, f, Boundary(g, base).value, Empty(startedAt), startedAt, reader);
  }

  lemma RefreshExtends(g: Bytes, f: Bytes, length: nat, base: nat, startedAt: nat, reader: Reader)
    requires length <= |f| && Prefix(g, f[..length]) && (base < |g| || base == 0)
    ensures Refreshed(Whole(g, base, startedAt, reader), f, length, startedAt, reader) ==
      if length == Whole(g, base, startedAt, reader).offset then Whole(f[..length], base, startedAt, reader)
      else Whole(f, base, startedAt, reader)
  {
    var p := Whole(g, base, startedAt, reader);
    assert Prefix(g, f);
    if length == p.offset {
      assert g == f[..length];
    } else if Boundary(g, base).Some? {
      WholeExtends(g, f, base, startedAt, reader);
    } else {
      assert p == Position(base, false, Empty(startedAt));
    }
  }

  /** One more poll after the file was followed as far as `before`. */
  lemma OneMorePoll(
    shown: Bytes, before: nat, poll: Poll, base: nat, startedAt: nat, reader: Reader) returns (seen: nat)
    requires before <= |shown| && (base < before || base == 0)
    requires poll.length <= |poll.content| && Prefix(shown, poll.content[..poll.length])
    ensures poll.length <= seen <= |poll.content| && (base < seen || base == 0)
    ensures Refreshed(Whole(shown[..before], base, startedAt, reader), poll.content, poll.length, startedAt, reader)
         == Whole(poll.content[..seen], base, startedAt, reader)
  {
    var g := shown[..before];
    assert poll.content[..|poll.content|] == poll.content;
    assert g == poll.content[..poll.length][..before];
    RefreshExtends(g, poll.content, poll.length, base, startedAt, reader);
    seen := if poll.length == Whole(g, base, startedAt, reader).offset then poll.length else |poll.content|;
  }

  lemma FirstPoll(firstLength: nat, poll: Poll, startedAt: nat, reader: Reader) returns (seen: nat)
    requires firstLength <= poll.length <= |poll.content|
    ensures var base := TailStart(firstLength);
      && poll.length <= seen <= |poll.content| && (base < seen || base == 0)
      && Refreshed(Opened(firstLength, startedAt), poll.content, poll.length, startedAt, reader)
         == Whole(poll.content[..seen], base, startedAt, reader)
  {
    assert poll.content[..|poll.content|] == poll.content;
    seen := if poll.length == 0 then 0 else |poll.content|;
  }

  /** The first refresh succeeds, so that there is a follower. */
  predicate Opens(firstLength: nat, poll: Poll, startedAt: nat, reader: Reader)
    requires poll.length <= |poll.content|
  {
    Succeeds(Opened(firstLength, startedAt), poll.content, poll.length, startedAt, reader)
  }

  /** Any schedule of refreshes of a growing file leaves the state of one reading
      of the file, as far as the last refresh saw it. */
  lemma {:induction false} AnyScheduleReadsTheWhole(
    firstLength: nat, polls: seq<Poll>, n: nat, startedAt: nat, reader: Reader) returns (seen: nat)
    requires Growing(polls) && 0 < n <= |polls| && firstLength <= polls[0].length
    requires Opens(firstLength, polls[0], startedAt, reader)
    ensures var last, base := polls[n - 1], TailStart(firstLength);
      && last.length <= seen <= |last.content| && (base < seen || base == 0)
      && Followed(firstLength, polls, n, startedAt, reader) == Whole(last.content[..seen], base, startedAt, reader)
    decreases n
  {
    if n == 1 {
      seen := FirstPoll(firstLength, polls[0], startedAt, reader);
    } else {
      var before := AnyScheduleReadsTheWhole(firstLength, polls, n - 1, startedAt, reader);
      seen := OneMorePoll(polls[n - 2].content, before, polls[n - 1], TailStart(firstLength), startedAt, reader);
    }
  }

  /** A file found shorter than the offset is followed again from its new tail. */
  lemma TruncationStartsOver(p: Position, f: Bytes, length: nat, startedAt: nat, reader: Reader)
    requires length <= |f| && length < p.offset
    ensures Refreshed(p, f, length, startedAt, reader) ==
      if length == 0 then Whole([], 0, startedAt, reader) else Whole(f, TailStart(length), startedAt, reader)
  {
  }

  // ---------------------------------------------------------------- what one reading says

  /** The lines before the first that is not UTF-8. */
  function TextLines(lines: seq<Bytes>, reader: Reader): (r: seq<Bytes>)
    ensures |r| <= |lines| && r == lines[..|r|]
    ensures forall line | line in r :: reader.decodable(line)
    ensures |r| < |lines| ==> !reader.decodable(lines[|r|])
  {
    if lines == [] || !reader.decodable(lines[0]) then []
    else [lines[0]] + TextLines(lines[1..], reader)
  }

  function Folded(lines: seq<Bytes>, startedAt: nat, reader: Reader): Summary {
    if lines == [] then Empty(startedAt)
    else Absorb(Folded(lines[..|lines| - 1], startedAt, reader), reader.parse(lines[|lines| - 1]), startedAt)
  }

  function FoldedFrom(s: Summary, lines: seq<Bytes>, startedAt: nat, reader: Reader): Summary
    decreases |lines|
  {
    if lines == [] then s
    else FoldedFrom(Absorb(s, reader.parse(lines[0]), startedAt), lines[1..], startedAt, reader)
  }

  lemma {:induction false} FoldedFromEmpty(done: seq<Bytes>, lines: seq<Bytes>, startedAt: nat, reader: Reader)
    ensures FoldedFrom(Folded(done, startedAt, reader), lines, startedAt, reader)
      == Folded(done + lines, startedAt, reader)
    decreases |lines|
  {
    if lines == [] {
      assert done + lines == done;
    } else {
      assert (done + [lines[0]])[..|done|] == done;
      FoldedFromEmpty(done + [lines[0]], lines[1..], startedAt, reader);
      assert done + [lines[0]] + lines[1..] == done + lines;
    }
  }

  lemma {:induction false} ConsumeFolds(f: Bytes, from: nat, s: Summary, startedAt: nat, reader: Reader)
    requires from <= |f|
    ensures var lines, p := TextLines(CompleteLines(f, from), reader), Consume(f, from, s, startedAt, reader);
      && p.summary == FoldedFrom(s, lines, startedAt, reader)
      && p.offset == from + |Joined(lines)|
    decreases |f| - from
  {
    if HasLine(f, from) {
      var stop := LineStop(f, from);
      var line := f[from..stop];
      var lines := CompleteLines(f, from);
      assert lines[0] == line && lines[1..] == CompleteLines(f, stop);
      if reader.decodable(line) {
        ConsumeFolds(f, stop, Absorb(s, reader.parse(line), startedAt), startedAt, reader);
        assert TextLines(lines, reader)[1..] == TextLines(lines[1..], reader);
      }
    }
  }

  /** Reading is complete exactly when every complete line is UTF-8. */
  lemma TextLinesAreAll(f: Bytes, from: nat, reader: Reader)
    requires from <= |f|
    ensures var lines := CompleteLines(f, from);
      |Joined(TextLines(lines, reader))| == |Joined(lines)| <==> forall line | line in lines :: reader.decodable(line)
  {
    var lines := CompleteLines(f, from);
    var text := TextLines(lines, reader);
    if |text| < |lines| {
      var stuck := lines[|text|];
      EachIsALine(f, from, stuck);
      var rest := lines[|text|..];
      assert lines == text + rest && rest[0] == stuck;
      JoinedConcat(text, rest);
      assert |Joined(rest)| >= |stuck| > 0;
    } else {
      assert text == lines;
    }
  }

  /** One reading is one fold over the complete lines from the tail boundary, as
      far as they are UTF-8.  A complete line that is not stops the follower for
      good: it has read every complete line exactly when all of them are UTF-8. */
  lemma WholeIsOneFold(f: Bytes, base: nat, startedAt: nat, reader: Reader)
    requires base <= |f| && Boundary(f, base).Some?
    ensures var from := Boundary(f, base).value;
      var lines, p := CompleteLines(f, from), Whole(f, base, startedAt, reader);
      && p.summary == Folded(TextLines(lines, reader), startedAt, reader)
      && p.offset == from + |Joined(TextLines(lines, reader))|
      && (p.offset == from + |Joined(lines)| <==> forall line | line in lines :: reader.decodable(line))
  {
    var from := Boundary(f, base).value;
    var text := TextLines(CompleteLines(f, from), reader);
    ConsumeFolds(f, from, Empty(startedAt), startedAt, reader);
    FoldedFromEmpty([], text, startedAt, reader);
    assert [] + text == text;
    TextLinesAreAll(f, from, reader);
  }

  /** Reading stops behind the last complete line, or before an undecodable one. */
  lemma {:induction false} ConsumeStops(f: Bytes, from: nat, s: Summary, startedAt: nat, reader: Reader)
    requires from <= |f|
    ensures var p := Consume(f, from, s, startedAt, reader);
      if forall line | line in CompleteLines(f, from) :: reader.decodable(line) then !HasLine(f, p.offset)
      else HasLine(f, p.offset) && !reader.decodable(f[p.offset..LineStop(f, p.offset)])
    decreases |f| - from
  {
    if HasLine(f, from) {
      var line, stop := f[from..LineStop(f, from)], LineStop(f, from);
      assert CompleteLines(f, from) == [line] + CompleteLines(f, stop);
      if reader.decodable(line) {
        ConsumeStops(f, stop, Absorb(s, reader.parse(line), startedAt), startedAt, reader);
        assert forall l :: l in CompleteLines(f, from) <==> l == line || l in CompleteLines(f, stop);
      } else {
        assert line in CompleteLines(f, from);
      }
    }
  }

  /** What there is to read from a boundary on is UTF-8. */
  predicate AllText(f: Bytes, from: nat, reader: Reader)
    requires from <= |f|
  {
    var lines := CompleteLines(f, from);
    var end := from + |Joined(lines)|;
    && (forall line | line in lines :: reader.decodable(line))
    && end <= |f| && (end == |f| || reader.decodable(f[end..]))
  }

  lemma ReadableExactly(f: Bytes, from: nat, s: Summary, startedAt: nat, reader: Reader)
    requires from <= |f|
    ensures Readable(f, Consume(f, from, s, startedAt, reader).offset, reader) <==> AllText(f, from, reader)
  {
    var lines, p := CompleteLines(f, from), Consume(f, from, s, startedAt, reader);
    ConsumeStops(f, from, s, startedAt, reader);
    ConsumeFolds(f, from, s, startedAt, reader);
    TextLinesAreAll(f, from, reader);
    if forall line | line in lines :: reader.decodable(line) {
      assert p.offset == from + |Joined(lines)|;
      assert p.offset < |f| ==> LineStop(f, p.offset) == |f| && f[p.offset..|f|] == f[p.offset..];
    }
  }

  /** Opening succeeds exactly when the file is found empty, shows no line boundary
      in its tail yet, or has nothing but UTF-8 from that boundary on: in every
      complete line and in what there is of the next one. */
  lemma OpensExactly(firstLength: nat, poll: Poll, startedAt: nat, reader: Reader)
    requires firstLength <= poll.length <= |poll.content|
    ensures var boundary := Boundary(poll.content, TailStart(firstLength));
      Opens(firstLength, poll, startedAt, reader) <==>
        poll.length == 0 || boundary.None? || AllText(poll.content, boundary.value, reader)
  {
    var f, base := poll.content, TailStart(firstLength);
    if Boundary(f, base).Some? { ReadableExactly(f, Boundary(f, base).value, Empty(startedAt), startedAt, reader); }
  }

  /** The follower stands before a complete line that is not UTF-8. */
  predicate Stalled(p: Position, f: Bytes, reader: Reader) {
    && p.aligned && p.offset <= |f| && HasLine(f, p.offset)
    && !reader.decodable(f[p.offset..LineStop(f, p.offset)])
  }

  lemma StalledStep(p: Position, g: Bytes, f: Bytes, length: nat, startedAt: nat, reader: Reader)
    requires Stalled(p, g, reader) && length <= |f| && Prefix(g, f[..length])
    ensures Refreshed(p, f, length, startedAt, reader) == p && Stalled(p, f, reader)
  {
    assert f[..length][..|g|] == f[..|g|];
    LineStopExtends(g, f, p.offset);
    PrefixSlice(g, f, p.offset, LineStop(g, p.offset));
  }

  ghost predicate StalledAt(firstLength: nat, polls: seq<Poll>, m: nat, p: Position, startedAt: nat, reader: Reader)
    requires Growing(polls)
  {
    0 < m <= |polls| && p == Followed(firstLength, polls, m, startedAt, reader)
        && Stalled(p, polls[m - 1].content, reader)
  }

  lemma StalledPoll(firstLength: nat, polls: seq<Poll>, m: nat, p: Position, startedAt: nat, reader: Reader)
    requires Growing(polls) && m < |polls| && StalledAt(firstLength, polls, m, p, startedAt, reader)
    ensures StalledAt(firstLength, polls, m + 1, p, startedAt, reader)
  {
    StalledStep(p, polls[m - 1].content, polls[m].content, polls[m].length, startedAt, reader);
  }

  /** A complete line that is not UTF-8 stops a follower for as long as it lives. */
  lemma {:induction false} StalledForItsLifetime(
    firstLength: nat, polls: seq<Poll>, n: nat, m: nat, p: Position, startedAt: nat, reader: Reader)
    requires Growing(polls) && n <= m <= |polls| && StalledAt(firstLength, polls, n, p, startedAt, reader)
    ensures StalledAt(firstLength, polls, m, p, startedAt, reader)
    decreases m
  {
    if n < m {
      StalledForItsLifetime(firstLength, polls, n, m - 1, p, startedAt, reader);
      StalledPoll(firstLength, polls, m - 1, p, startedAt, reader);
    }
  }

  const GOOD_START: Bytes := [65, 10]
  const BAD_LINE: Bytes := [255, 10]
  const EVENT_LINE: Bytes := [66, 10]

  /** Reads no line with a byte that is never UTF-8, and one line as an event. */
  function SampleReader(): Reader {
    Reader(line => 255 !in line, line => if line == EVENT_LINE then Some(Event(Some(5), Some(Active))) else None)
  }

  /** A concrete case: a follower opened on a good line meets an undecodable one,
      and never reads the event in the complete line after it. */
  lemma UndecodableLineStalls(startedAt: nat)
    ensures var reader := SampleReader();
      var f := GOOD_START + BAD_LINE + EVENT_LINE;
      var polls := [Poll(2, GOOD_START), Poll(6, f)];
      && Growing(polls) && Opens(2, polls[0], startedAt, reader)
      && EVENT_LINE in CompleteLines(f, 0) && Stamp(EVENT_LINE, startedAt, reader) == Some(5)
      && Followed(2, polls, 2, startedAt, reader) == Position(2, true, Empty(startedAt))
      && Stalled(Followed(2, polls, 2, startedAt, reader), f, reader)
  {
    var reader := SampleReader();
    var f := GOOD_START + BAD_LINE + EVENT_LINE;
    var polls := [Poll(2, GOOD_START), Poll(6, f)];
    assert f[..2] == GOOD_START && f[..6] == f;
    StopAtSecond(GOOD_START, 0);
    StopAtSecond(f, 0);
    StopAtSecond(f, 2);
    StopAtSecond(f, 4);
    assert f[0..2] == GOOD_START && f[2..4] == BAD_LINE && f[4..6] == EVENT_LINE && GOOD_START[0..2] == GOOD_START;
    assert BAD_LINE[0] == 255 && GOOD_START[0] == 65 && EVENT_LINE[0] == 66;
    assert CompleteLines(f, 4) == [EVENT_LINE] + CompleteLines(f, 6);
    assert CompleteLines(f, 2) == [BAD_LINE] + CompleteLines(f, 4);
    assert CompleteLines(f, 0) == [GOOD_START] + CompleteLines(f, 2);
    assert EVENT_LINE in CompleteLines(f, 4) && EVENT_LINE in CompleteLines(f, 2);
    assert Followed(2, polls, 1, startedAt, reader) == Position(2, true, Empty(startedAt));
  }

  lemma StopAtSecond(f: Bytes, from: nat)
    requires from + 2 <= |f| && f[from] != NEWLINE && f[from + 1] == NEWLINE
    ensures LineStop(f, from) == from + 2 && HasLine(f, from)
  {
    assert LineStop(f, from + 1) == from + 2;
  }

  // ---------------------------------------------------------------- the lifecycle

  /** The stamp under which a line's lifecycle event is ordered. */
  function Stamp(line: Bytes, startedAt: nat, reader: Reader): Option<nat> {
    var event := reader.parse(line);
    if event.Some? && event.value.lifecycle.Some? then Some(event.value.timestamp.GetOr(startedAt)) else None
  }

  /** The kind of a line's lifecycle event. */
  function KindOf(line: Bytes, reader: Reader): Lifecycle
    requires reader.parse(line).Some? && reader.parse(line).value.lifecycle.Some?
  {
    reader.parse(line).value.lifecycle.value
  }

  /** Line `i` holds the last lifecycle event among those with the greatest stamp. */
  ghost predicate Decisive(lines: seq<Bytes>, i: nat, startedAt: nat, reader: Reader) {
    && i < |lines| && Stamp(lines[i], startedAt, reader).Some?
    && (forall j | 0 <= j < |lines| && Stamp(lines[j], startedAt, reader).Some? ::
          && Stamp(lines[j], startedAt, reader).value <= Stamp(lines[i], startedAt, reader).value
          && (j > i ==> Stamp(lines[j], startedAt, reader).value < Stamp(lines[i], startedAt, reader).value))
  }

  /** The folded lifecycle is that of the decisive line, and there is none exactly
      when no line has a lifecycle event. */
  lemma {:induction false} LifecycleIsDecisive(lines: seq<Bytes>, startedAt: nat, reader: Reader) returns (i: nat)
    ensures var folded := Folded(lines, startedAt, reader).lifecycle;
      && (folded.None? <==> forall line | line in lines :: Stamp(line, startedAt, reader).None?)
      && (folded.Some? ==> Decisive(lines, i, startedAt, reader))
      && (folded.Some? ==> folded == Some((Stamp(lines[i], startedAt, reader).value, KindOf(lines[i], reader))))
    decreases |lines|
  {
    i := 0;
    if lines != [] {
      var n := |lines| - 1;
      assert forall line :: line in lines <==> line in lines[..n] || line == lines[n];
      var k := LifecycleIsDecisive(lines[..n], startedAt, reader);
      var before, after := Folded(lines[..n], startedAt, reader).lifecycle, Folded(lines, startedAt, reader).lifecycle;
      i := if after == before then k else n;
      if Stamp(lines[n], startedAt, reader).None? {
        assert after == before;
      } else if before.Some? && Stamp(lines[n], startedAt, reader).value < before.value.0 {
        assert after == before;
      } else {
        i := n;
        forall j | 0 <= j < n && Stamp(lines[j], startedAt, reader).Some?
          ensures Stamp(lines[j], startedAt, reader).value <= Stamp(lines[n], startedAt, reader).value
        {
          assert lines[..n][j] == lines[j] && lines[j] in lines[..n];
        }
      }
    }
  }

  /** `last_event_at_ms` is the greatest of the start and all timestamps. */
  lemma {:induction false} LastEventIsGreatest(lines: seq<Bytes>, startedAt: nat, reader: Reader)
    ensures var last := Folded(lines, startedAt, reader).lastEvent;
      && last >= startedAt
      && (forall line | line in lines && reader.parse(line).Some? && reader.parse(line).value.timestamp.Some? ::
            reader.parse(line).value.timestamp.value <= last)
      && (last == startedAt || exists line :: line in lines && reader.parse(line) != None
                                && reader.parse(line).value.timestamp == Some(last))
    decreases |lines|
  {
    if lines != [] {
      var n := |lines| - 1;
      assert forall line :: line in lines <==> line in lines[..n] || line == lines[n];
      LastEventIsGreatest(lines[..n], startedAt, reader);
    }
  }

  // ---------------------------------------------------------------- what is reported

  /** `observation`'s `finished_at_ms`. */
  function FinishedAt(s: Summary, now: nat): Option<nat> {
    if s.lifecycle.Some? && s.lifecycle.value.1.Finished? then Some(s.lifecycle.value.0)
    else if now >= s.lastEvent && now - s.lastEvent >= ACTIVE_STALE_MS then Some(s.lastEvent + ACTIVE_STALE_MS)
    else None
  }

  /** The greatest of the start and the timestamps of these lines. */
  ghost predicate GreatestTime(lines: seq<Bytes>, startedAt: nat, reader: Reader, last: nat) {
    && startedAt <= last && (last == startedAt || exists line :: line in lines && TimeOf(line, reader) == Some(last))
    && forall line | line in lines && TimeOf(line, reader).Some? :: TimeOf(line, reader).value <= last
  }

  function TimeOf(line: Bytes, reader: Reader): Option<nat> {
    if reader.parse(line).Some? then reader.parse(line).value.timestamp else None
  }

  /** Read off the lines: a rollout is finished at the time of its last lifecycle
      event if that ended the turn; otherwise once nothing was heard of it for
      thirty minutes, at the end of these; and otherwise not at all. */
  lemma FinishedExactly(lines: seq<Bytes>, startedAt: nat, reader: Reader, now: nat) returns (i: nat, last: nat)
    ensures GreatestTime(lines, startedAt, reader, last)
    ensures (exists line :: line in lines && Stamp(line, startedAt, reader).Some?) ==>
      Decisive(lines, i, startedAt, reader)
    ensures FinishedAt(Folded(lines, startedAt, reader), now) ==
      if (exists line :: line in lines && Stamp(line, startedAt, reader).Some?) && KindOf(lines[i], reader).Finished?
      then Some(TimeOf(lines[i], reader).GetOr(startedAt))
      else if now - last >= 1_800_000 then Some(last + 1_800_000) else None
  {
    i := LifecycleIsDecisive(lines, startedAt, reader);
    LastEventIsGreatest(lines, startedAt, reader);
    last := Folded(lines, startedAt, reader).lastEvent;
    if last != startedAt {
      var line :| line in lines && reader.parse(line) != None && reader.parse(line).value.timestamp == Some(last);
      assert TimeOf(line, reader) == Some(last);
    }
  }

  /** While nothing is appended, a finish once reported keeps its time. */
  lemma FinishIsStable(s: Summary, now: nat, later: nat)
    requires now <= later && FinishedAt(s, now).Some?
    ensures FinishedAt(s, later) == FinishedAt(s, now)
  {
  }
}
