/**
 What the delivery protocol promises over every run, and the procedure that
 drives it on the receiving side: `deliver_with_submission` of src/handoff.rs.
 */
module HandoffDelivery {
  import opened Wrappers
  import opened HandoffProtocol

  // ---------------------------------------------------------------- safety of runs

  lemma Reachable(events: seq<Event>)
    ensures Inv(Run(INITIAL, events))
  {
    RunKeepsInv(INITIAL, events);
  }

  lemma ReachableSafety(events: seq<Event>, id: string)
    requires AllHarmlessFor(INITIAL, events, id)
    ensures SafetyFor(Run(INITIAL, events), id)
  {
    RunKeepsSafety(INITIAL, events, id);
  }

  /** The terminal inputs of one handoff ID, in order. */
  predicate TypedFor(s: State, id: string, i: nat) {
    i < |s.terminal| && Under(s, s.terminal[i], id)
  }

  /** Two inputs were typed under one handoff ID. */
  ghost predicate TypedTwice(s: State, id: string) {
    exists i: nat, j: nat :: i < j && TypedFor(s, id, i) && TypedFor(s, id, j)
  }

  lemma SafeTypesOnce(s: State, id: string)
    requires SafetyFor(s, id) && TerminalInv(s)
    ensures !TypedTwice(s, id)
  {
    forall i: nat, j: nat | i < j && TypedFor(s, id, i) ensures !TypedFor(s, id, j) {
      if j < |s.terminal| { AloneUnder(s, id, s.terminal[i], s.terminal[j]); }
    }
  }

  lemma AloneUnder(s: State, id: string, a: nat, b: nat)
    requires SafetyFor(s, id) && Under(s, a, id) && a != b && MayType(s, a) && MayType(s, b)
    ensures !Under(s, b, id)
  {
    assert Under(s, b, id) ==> Apart(s, a, b);
  }

  /** Terminal input happens at most once under a handoff ID, so two requests that
      share it and differ in recipient or text never both paste; what happens to
      the claims of other IDs does not matter. */
  lemma AtMostOneInputPerId(events: seq<Event>, id: string)
    requires AllHarmlessFor(INITIAL, events, id)
    ensures !TypedTwice(Run(INITIAL, events), id)
  {
    Reachable(events);
    ReachableSafety(events, id);
    SafeTypesOnce(Run(INITIAL, events), id);
  }

  /** These events miss no further claim to harm, and end with two pastes under the ID. */
  ghost predicate PastesTwice(s: State, later: seq<Event>, id: string) {
    AllHarmlessFor(s, later, id) && TypedTwice(Run(s, later), id)
  }

  /** A missed claim can be followed by a second paste exactly when something
      under its ID may have typed already. */
  lemma MissedClaimsPasteAgain(before: seq<Event>, e: Event, id: string)
    requires AllHarmlessFor(INITIAL, before, id)
    requires var s := Run(INITIAL, before); e.MissClaim? && Enabled(s, e) && Under(s, e.a, id)
    ensures var s := Run(INITIAL, before);
      !HarmlessFor(s, e, id) <==> exists later :: PastesTwice(Next(s, e), later, id)
  {
    var s := Run(INITIAL, before);
    Reachable(before);
    ReachableSafety(before, id);
    if HarmlessFor(s, e, id) {
      forall later | AllHarmlessFor(Next(s, e), later, id) ensures !PastesTwice(Next(s, e), later, id) {
        NextKeepsSafety(s, e, id);
        NextKeepsInv(s, e);
        RunKeepsSafety(Next(s, e), later, id);
        RunKeepsInv(Next(s, e), later);
        SafeTypesOnce(Run(Next(s, e), later), id);
      }
    } else {
      var b: nat :| Under(s, b, id) && MayType(s, b);
      PasteAgain(s, e.a, b, id);
      assert e == MissClaim(e.a);
      assert PastesTwice(Next(s, e), Finishing(e.a, b), id);
    }
  }

  /** The rest of a delivery that meets no failure. */
  function Finishing(a: nat, b: nat): seq<Event> {
    Issuing(a) + [TmuxRuns(a, Typed), TmuxRuns(b, Typed)]
  }

  /** From the missing claim to the command in the hands of tmux. */
  function Issuing(a: nat): seq<Event> {
    [WriteClaim(a, Durable), Stage(a, true), Scan(a, true), Issue(a)]
  }

  lemma IssuesFromClaiming(s: State, a: nat)
    requires a < |s.attempts| && s.attempts[a].phase.Claiming?
    ensures var t := Run(s, Issuing(a));
      && t.attempts == s.attempts[a := s.attempts[a].(phase := Awaiting)] && t.inFlight == s.inFlight + {a}
      && t.terminal == s.terminal && t.effects == s.effects && t.holder == s.holder
      && t.claims == s.claims[s.attempts[a].request.id := Claim(Fingerprint(s.attempts[a].request), Pending)]
  {
    var e := Issuing(a);
    var s1 := Next(s, e[0]);
    var s2 := Next(s1, e[1]);
    var s3 := Next(s2, e[2]);
    var t := Next(s3, e[3]);
    assert Run(s3, e[3..]) == t;
    assert Run(s2, e[2..]) == t;
    assert Run(s1, e[1..]) == t;
  }

  lemma {:induction false} NoMissIsHarmless(s: State, events: seq<Event>, id: string)
    requires forall k | 0 <= k < |events| :: !events[k].MissClaim?
    ensures AllHarmlessFor(s, events, id)
    decreases |events|
  {
    if events != [] { NoMissIsHarmless(Next(s, events[0]), events[1..], id); }
  }

  /** The run in which attempt `a` overwrites the claim it missed. */
  lemma PasteAgain(s: State, a: nat, b: nat, id: string)
    requires Inv(s) && Under(s, a, id) && Under(s, b, id) && Enabled(s, MissClaim(a)) && MayType(s, b)
    ensures PastesTwice(Next(s, MissClaim(a)), Finishing(a, b), id)
  {
    var missed := Next(s, MissClaim(a));
    NoMissIsHarmless(missed, Finishing(a, b), id);
    RunOver(missed, Issuing(a), [TmuxRuns(a, Typed), TmuxRuns(b, Typed)]);
    IssuesFromClaiming(missed, a);
    assert CommandAt(s, a);
    LastTwo(s, Run(missed, Issuing(a)), a, b, id);
  }

  lemma LastTwo(s: State, s4: State, a: nat, b: nat, id: string)
    requires TerminalInv(s) && a != b && Under(s, a, id) && Under(s, b, id) && MayType(s, b)
    requires s4.attempts == s.attempts[a := s.attempts[a].(phase := Awaiting)] && s4.inFlight == s.inFlight + {a}
    requires s4.terminal == s.terminal && s4.effects == s.effects
    ensures TypedTwice(Run(s4, [TmuxRuns(a, Typed), TmuxRuns(b, Typed)]), id)
  {
    var e := [TmuxRuns(a, Typed), TmuxRuns(b, Typed)];
    var s5 := Next(s4, e[0]);
    assert s5 == TmuxRunsStep(s4, a, Typed);
    var t := Next(s5, e[1]);
    assert t == if b in s.inFlight then TmuxRunsStep(s5, b, Typed) else s5;
    assert Run(s5, e[1..]) == t;
    TwoTyped(s, a, b, s5, t, id);
  }

  /** Attempt `b` typed before or after attempt `a` did. */
  lemma TwoTyped(s: State, a: nat, b: nat, s5: State, t: State, id: string)
    requires TerminalInv(s) && a != b && Under(s, a, id) && Under(s, b, id) && MayType(s, b)
    requires s5.attempts == s.attempts[a := s.attempts[a].(phase := Awaiting)] && s5.terminal == s.terminal + [a]
    requires t == if b in s.inFlight then TmuxRunsStep(s5, b, Typed) else s5
    ensures TypedTwice(t, id)
  {
    var n := |s.terminal|;
    assert t.terminal[n] == a && TypedFor(t, id, n);
    if b in s.inFlight {
      assert t.terminal[n + 1] == b && TypedFor(t, id, n + 1);
    } else {
      var i: nat :| i < n && s.terminal[i] == b;
      assert t.terminal[i] == b && TypedFor(t, id, i);
    }
  }

  /** A second paste does happen: the first receiver types and dies before it
      records that, and the second one cannot look for the claim. */
  function MissingRun(first: Request, second: Request): seq<Event> {
    [Send(first), Send(second)]
    + (Driven(0) + ([TmuxRuns(0, Typed), Crash(0), Receive(1, true), Acquire(1, true)]
                    + ([MissClaim(1)] + Finishing(1, 0))))
  }

  lemma PastingTwiceHappens(first: Request, second: Request)
    requires first.version == second.version == HANDOFF_VERSION && first.id == second.id
    ensures TypedTwice(Run(INITIAL, MissingRun(first, second)), first.id)
  {
    var sends := [Send(first), Send(second)];
    var middle := [TmuxRuns(0, Typed), Crash(0), Receive(1, true), Acquire(1, true)];
    var last := [MissClaim(1)] + Finishing(1, 0);
    RunOver(INITIAL, sends, Driven(0) + (middle + last));
    var s0 := Next(Next(INITIAL, sends[0]), sends[1]);
    assert Run(Next(INITIAL, sends[0]), sends[1..]) == s0;
    RunOver(s0, Driven(0), middle + last);
    var s1 := DriveOne(s0, 0);
    RunOver(s1, middle, last);
    var s2 := Handover(s1);
    RunOver(INITIAL, sends, Driven(0) + middle);
    RunOver(s0, Driven(0), middle);
    Reachable(sends + (Driven(0) + middle));
    PasteAgain(s2, 1, 0, first.id);
    assert last[1..] == Finishing(1, 0);
    assert Run(s2, last) == Run(Next(s2, MissClaim(1)), Finishing(1, 0));
  }

  /** The first of two attempts types and dies, the second takes the lock. */
  lemma Handover(s: State) returns (t: State)
    requires |s.attempts| == 2 && s.attempts[0].phase.Awaiting? && s.attempts[1].phase.Requested?
    requires s.holder == Some(0) && 0 in s.inFlight && s.attempts[1].request.version == HANDOFF_VERSION
    ensures t == Run(s, [TmuxRuns(0, Typed), Crash(0), Receive(1, true), Acquire(1, true)])
    ensures |t.attempts| == 2 && t.attempts[0].request == s.attempts[0].request
    ensures t.attempts[1].request == s.attempts[1].request && Enabled(t, MissClaim(1)) && MayType(t, 0)
  {
    var e := [TmuxRuns(0, Typed), Crash(0), Receive(1, true), Acquire(1, true)];
    var s1 := Next(s, e[0]);
    var s2 := Next(s1, e[1]);
    var s3 := Next(s2, e[2]);
    t := Next(s3, e[3]);
    assert Run(s3, e[3..]) == t;
    assert Run(s2, e[2..]) == t;
    assert Run(s1, e[1..]) == t;
  }

  /** Handed its command to tmux and let go of the lock before tmux ran it. */
  predicate Orphaned(s: State, a: nat) {
    a < |s.attempts| && a in s.inFlight && !Critical(s.attempts[a].phase)
  }

  /** At most one process is between taking the lock and answering, and commands
      still in flight belong to it or were orphaned by a crash or a lost client. */
  lemma OneProcessSubmits(events: seq<Event>, a: nat, b: nat)
    requires var s := Run(INITIAL, events); a < |s.attempts| && b < |s.attempts|
    ensures var s := Run(INITIAL, events);
      && (Critical(s.attempts[a].phase) && Critical(s.attempts[b].phase) ==> a == b)
      && (a in s.inFlight && b in s.inFlight && a != b ==> Orphaned(s, a) || Orphaned(s, b))
      && (Orphaned(s, a) ==> exists i: nat :: Orphans(events, i, a) && StillInFlight(events, i, |events|, a))
  {
    Reachable(events);
    var s := Run(INITIAL, events);
    assert LockAt(s, a) && LockAt(s, b);
    if Orphaned(s, a) { var i := FindOrphaning(events, a); }
  }

  /** Event `i` takes the lock from attempt `b` while its command is in flight: the
      process dies, or its tmux client reports nothing. */
  ghost predicate Orphans(events: seq<Event>, i: nat, b: nat) {
    && i < |events| && Enabled(Run(INITIAL, events[..i]), events[i]) && b in Run(INITIAL, events[..i]).inFlight
    && events[i] in {Crash(b), TmuxReports(b, NoAnswer)}
  }

  /** tmux does not run the command of `b` after event `i` and before event `j`. */
  ghost predicate StillInFlight(events: seq<Event>, i: nat, j: nat, b: nat) {
    j <= |events| && forall k: nat | i < k < j :: !(events[k].TmuxRuns? && events[k].a == b)
  }

  /** Some event `j` hands over a command between the orphaning of another one by
      event `i` and its run. */
  ghost predicate IssuedOverOrphan(events: seq<Event>, i: nat, j: nat, b: nat) {
    && i < j < |events| && Orphans(events, i, b) && StillInFlight(events, i, j, b)
    && events[j].Issue? && Enabled(Run(INITIAL, events[..j]), events[j])
  }

  ghost predicate BothInFlight(events: seq<Event>, n: nat, a: nat, b: nat) {
    n <= |events| && a != b && a in Run(INITIAL, events[..n]).inFlight && b in Run(INITIAL, events[..n]).inFlight
  }

  lemma RunOneMore(s: State, events: seq<Event>, n: nat)
    requires n < |events|
    ensures Run(s, events[..n + 1]) == Next(Run(s, events[..n]), events[n])
  {
    assert events[..n + 1] == events[..n] + [events[n]];
    RunOver(s, events[..n], [events[n]]);
    assert Run(Run(s, events[..n]), [events[n]]) == Next(Run(s, events[..n]), events[n]);
  }

  /** One step that leaves a command orphaned either found it so or orphaned it. */
  lemma OrphaningStep(s: State, e: Event, b: nat)
    requires BaseInv(s) && Orphaned(Next(s, e), b)
    ensures b in s.inFlight && !(e.TmuxRuns? && e.a == b)
    ensures !Orphaned(s, b) ==> Enabled(s, e) && e in {Crash(b), TmuxReports(b, NoAnswer)}
  {
    NextKeepsBase(s, e);
    if b < |s.attempts| {
      assert CommandAt(s, b) && LockAt(s, b);
      if e.Send? || e.a != b { OthersUnmoved(s, e, b); }
    }
  }

  lemma {:induction false} FindOrphaning(events: seq<Event>, b: nat) returns (i: nat)
    requires Orphaned(Run(INITIAL, events), b)
    ensures Orphans(events, i, b) && StillInFlight(events, i, |events|, b)
    decreases |events|
  {
    assert events != [] by { assert Run(INITIAL, []).inFlight == {}; }
    var n := |events| - 1;
    var fewer := events[..n];
    assert events[..n + 1] == events;
    RunOneMore(INITIAL, events, n);
    Reachable(fewer);
    OrphaningStep(Run(INITIAL, fewer), events[n], b);
    if Orphaned(Run(INITIAL, fewer), b) {
      i := FindOrphaning(fewer, b);
      assert fewer[..i] == events[..i];
      assert forall k: nat | k < n :: fewer[k] == events[k];
    } else {
      i := n;
    }
  }

  /** Commands of two attempts are ever in flight together exactly when one is
      handed over after another was orphaned and before tmux ran that one. */
  lemma OverlapNeedsAnOrphan(events: seq<Event>)
    ensures (exists n: nat, a: nat, b: nat :: BothInFlight(events, n, a, b))
            <==> (exists i: nat, j: nat, b: nat :: IssuedOverOrphan(events, i, j, b))
  {
    if n: nat, a: nat, b: nat :| BothInFlight(events, n, a, b) { var i, j, c := FindOverlap(events, n, a, b); }
    if i: nat, j: nat, b: nat :| IssuedOverOrphan(events, i, j, b) {
      OrphanStays(events, i, j, b);
      RunOneMore(INITIAL, events, j);
      Reachable(events[..j]);
      assert CommandAt(Run(INITIAL, events[..j]), events[j].a);
      assert BothInFlight(events, j + 1, events[j].a, b);
    }
  }

  lemma {:induction false} OrphanStays(events: seq<Event>, i: nat, j: nat, b: nat)
    requires i < j <= |events| && Orphans(events, i, b) && StillInFlight(events, i, j, b)
    ensures b in Run(INITIAL, events[..j]).inFlight
    decreases j
  {
    RunOneMore(INITIAL, events, j - 1);
    if j > i + 1 { OrphanStays(events, i, j - 1, b); }
  }

  /** The step that puts two commands in flight issues one over an orphan. */
  lemma OverlappingStep(s: State, e: Event, a: nat, b: nat)
    requires BaseInv(s) && a != b && a in Next(s, e).inFlight && b in Next(s, e).inFlight && b in s.inFlight
      && a !in s.inFlight
    ensures e == Issue(a) && Enabled(s, e) && Orphaned(s, b)
  {
    assert b < |s.attempts|;
    assert LockAt(s, b);
    if a < |s.attempts| { assert LockAt(s, a); }
  }

  lemma {:induction false} FindOverlap(events: seq<Event>, n: nat, a: nat, b: nat) returns (i: nat, j: nat, c: nat)
    requires BothInFlight(events, n, a, b)
    ensures IssuedOverOrphan(events, i, j, c)
    decreases n
  {
    assert n > 0 by { assert events[..0] == [] && Run(INITIAL, []).inFlight == {}; }
    var before := events[..n - 1];
    var s, e := Run(INITIAL, before), events[n - 1];
    RunOneMore(INITIAL, events, n - 1);
    Reachable(before);
    if a in s.inFlight && b in s.inFlight {
      i, j, c := FindOverlap(events, n - 1, a, b);
    } else {
      c, j := if b in s.inFlight then b else a, n - 1;
      AddsOne(s, e, a, b);
      OverlappingStep(s, e, if b in s.inFlight then a else b, c);
      i := FindOrphaning(before, c);
      assert before[..i] == events[..i];
      assert forall k: nat | k < n - 1 :: before[k] == events[k];
    }
  }

  /** One step puts at most one more command in flight. */
  lemma AddsOne(s: State, e: Event, a: nat, b: nat)
    requires a != b && a in Next(s, e).inFlight && b in Next(s, e).inFlight
    ensures a in s.inFlight || b in s.inFlight
  {
  }

  /** Events by which attempt `a` takes the lock, claims its ID and hands its
      command to tmux. */
  function Driven(a: nat): seq<Event> {
    [Receive(a, true), Acquire(a, true), ReadClaim(a, true)] + Issuing(a)
  }

  /** Overlap does happen: the first receiver dies while its tmux client is
      still talking, and the second one finds the lock free. */
  lemma OrphansDoOverlap(s: State, a: nat, b: nat)
    requires a < |s.attempts| && b < |s.attempts| && s.holder.None?
    requires s.attempts[a].phase.Requested? && s.attempts[b].phase.Requested?
    requires s.attempts[a].request.version == s.attempts[b].request.version == HANDOFF_VERSION
    requires s.attempts[a].request.id != s.attempts[b].request.id
    requires s.attempts[a].request.id !in s.claims && s.attempts[b].request.id !in s.claims
    ensures Run(s, Driven(a) + ([Crash(a)] + Driven(b))).inFlight == s.inFlight + {a, b}
  {
    RunOver(s, Driven(a), [Crash(a)] + Driven(b));
    var s1 := DriveOne(s, a);
    RunOver(s1, [Crash(a)], Driven(b));
    var s2 := Next(s1, Crash(a));
    assert Run(s1, [Crash(a)]) == s2;
    assert s2 == Move(s1, a, Crashed).(holder := None);
    var s3 := DriveOne(s2, b);
  }

  /** It does from the start: two senders, and a crash of the first receiver. */
  lemma OverlapHappens(first: Request, second: Request)
    requires first.version == second.version == HANDOFF_VERSION && first.id != second.id
    ensures Run(INITIAL, [Send(first), Send(second)] + (Driven(0) + ([Crash(0)] + Driven(1)))).inFlight == {0, 1}
  {
    var sends := [Send(first), Send(second)];
    var s1 := Next(INITIAL, sends[0]);
    var s := Next(s1, sends[1]);
    assert Run(s1, sends[1..]) == s;
    assert Run(INITIAL, sends) == s;
    RunOver(INITIAL, sends, Driven(0) + ([Crash(0)] + Driven(1)));
    OrphansDoOverlap(s, 0, 1);
  }

  /** An attempt that finds no claim and meets no failure reaches tmux. */
  lemma DriveOne(s: State, a: nat) returns (t: State)
    requires a < |s.attempts| && s.attempts[a].phase.Requested? && s.holder.None?
    requires s.attempts[a].request.version == HANDOFF_VERSION && s.attempts[a].request.id !in s.claims
    ensures t == Run(s, Driven(a))
    ensures t.attempts == s.attempts[a := s.attempts[a].(phase := Awaiting)]
    ensures t.holder == Some(a) && t.inFlight == s.inFlight + {a}
    ensures t.claims == s.claims[s.attempts[a].request.id := Claim(Fingerprint(s.attempts[a].request), Pending)]
  {
    var e := [Receive(a, true), Acquire(a, true), ReadClaim(a, true)];
    var s1 := Next(s, e[0]);
    var s2 := Next(s1, e[1]);
    var s3 := Next(s2, e[2]);
    assert Run(s2, e[2..]) == s3;
    assert Run(s1, e[1..]) == s3;
    RunOver(s, e, Issuing(a));
    IssuesFromClaiming(s3, a);
    t := Run(s3, Issuing(a));
  }

  lemma {:induction false} RunOver(s: State, first: seq<Event>, later: seq<Event>)
    ensures Run(s, first + later) == Run(Run(s, first), later)
    decreases |first|
  {
    if first == [] {
      assert first + later == later;
    } else {
      assert (first + later)[1..] == first[1..] + later;
      RunOver(Next(s, first[0]), first[1..], later);
    }
  }

  // ---------------------------------------------------------------- honesty over whole runs

  lemma NextKeepsLength(s: State, e: Event)
    ensures |s.attempts| <= |Next(s, e).attempts|
  {
  }

  /** Once settled a sender status never changes, and terminal history only grows. */
  lemma {:induction false} HistoryIsKept(s: State, events: seq<Event>)
    requires Inv(s)
    ensures var t := Run(s, events);
      && s.terminal <= t.terminal
      && |s.attempts| <= |t.attempts|
      && (forall a: nat | a < |s.attempts| :: t.attempts[a].request == s.attempts[a].request)
      && (forall a: nat | a < |s.attempts| && s.attempts[a].sender.Settled? ::
           t.attempts[a].sender == s.attempts[a].sender)
    decreases |events|
  {
    if events != [] {
      NextKeepsInv(s, events[0]);
      NextKeepsTerminal(s, events[0]);
      forall a: nat | a < |s.attempts|
        ensures a < |Next(s, events[0]).attempts|
        ensures Next(s, events[0]).attempts[a].request == s.attempts[a].request
        ensures s.attempts[a].sender.Settled? ==> Next(s, events[0]).attempts[a].sender == s.attempts[a].sender
      {
        NextKeepsHistory(s, events[0], a);
      }
      NextKeepsLength(s, events[0]);
      HistoryIsKept(Next(s, events[0]), events[1..]);
    }
  }

  /** A sender told Delivered or Duplicate: now and after whatever happens
      later, a whole submission under the ID carries this very recipient and
      text; it is this attempt's own exactly if the status is Delivered, and
      this attempt typed nothing if it is Duplicate. */
  lemma ConfirmedWasSubmitted(before: seq<Event>, later: seq<Event>, a: nat) returns (author: nat)
    requires var s := Run(INITIAL, before);
      a < |s.attempts| && s.attempts[a].sender in {Settled(StatusDelivered), Settled(StatusDuplicate)}
    ensures var s, t := Run(INITIAL, before), Run(INITIAL, before + later);
      && SubmittedBy(t, author, Fingerprint(s.attempts[a].request)) && author in t.terminal
      && (s.attempts[a].sender == Settled(StatusDelivered) ==> author == a)
      && (s.attempts[a].sender == Settled(StatusDuplicate) ==> a !in t.terminal)
  {
    var s, t := Run(INITIAL, before), Run(INITIAL, before + later);
    Reachable(before);
    Reachable(before + later);
    RunOver(INITIAL, before, later);
    HistoryIsKept(s, later);
    assert AnswerAt(t, a) && StatusMatches(t.attempts[a]);
    if s.attempts[a].sender == Settled(StatusDelivered) { author := a; }
    else { author :| SubmittedBy(t, author, Fingerprint(t.attempts[a].request)); }
  }

  /** ... and as long as no miss under the ID is harmful, that is the only input
      there is under it. */
  lemma ConfirmedIsHonest(before: seq<Event>, later: seq<Event>, a: nat, id: string)
    requires Under(Run(INITIAL, before), a, id) && AllHarmlessFor(INITIAL, before + later, id)
    requires Run(INITIAL, before).attempts[a].sender in {Settled(StatusDelivered), Settled(StatusDuplicate)}
    ensures var s, t := Run(INITIAL, before), Run(INITIAL, before + later);
      exists i: nat ::
        && TypedFor(t, id, i) && (forall j: nat | TypedFor(t, id, j) :: j == i)
        && t.terminal[i] in t.effects && t.effects[t.terminal[i]].Typed?
        && Fingerprint(t.attempts[t.terminal[i]].request) == Fingerprint(s.attempts[a].request)
        && (s.attempts[a].sender == Settled(StatusDelivered) <==> t.terminal[i] == a)
  {
    var t := Run(INITIAL, before + later);
    var author := ConfirmedWasSubmitted(before, later, a);
    AtMostOneInputPerId(before + later, id);
    Reachable(before + later);
    var i: nat :| i < |t.terminal| && t.terminal[i] == author;
    assert TypedFor(t, id, i);
    forall j: nat | TypedFor(t, id, j) ensures j == i {
      assert !TypedTwice(t, id);
    }
  }

  /** A sender told Failed or Incompatible: this attempt never produced terminal
      input, and never will, even if claims are missed. */
  lemma FailedTypesNothing(before: seq<Event>, later: seq<Event>, a: nat)
    requires var s := Run(INITIAL, before);
      a < |s.attempts| && s.attempts[a].sender in {Settled(StatusFailed), Settled(StatusIncompatible)}
    ensures var t := Run(INITIAL, before + later);
      !MayType(t, a) && a !in t.terminal
  {
    var s := Run(INITIAL, before);
    Reachable(before);
    Reachable(before + later);
    RunOver(INITIAL, before, later);
    HistoryIsKept(s, later);
    var t := Run(INITIAL, before + later);
    assert AnswerAt(t, a) && CommandAt(t, a);
  }

  /** From the step that confirms a handoff or leaves it open, no attempt under the
      ID ever types that was not already able to: retries are harmless.  Only
      claims of this ID missed after that step could change it. */
  lemma AnsweredIdIsNeverTypedAgain(before: seq<Event>, e: Event, later: seq<Event>, id: string, b: nat)
    requires var s := Run(INITIAL, before); Settles(s, e) && Under(s, e.a, id)
    requires AllLookedFor(Next(Run(INITIAL, before), e), later, id)
    requires var t := Run(INITIAL, before + ([e] + later)); Under(t, b, id) && MayType(t, b)
    ensures MayType(Next(Run(INITIAL, before), e), b)
  {
    var s := Run(INITIAL, before);
    Reachable(before);
    NextKeepsInv(s, e);
    SettlingSeals(s, e);
    RunOver(INITIAL, before, [e] + later);
    assert ([e] + later)[1..] == later;
    SealedIdGainsNoTyper(Next(s, e), later, id, b);
  }

  lemma {:induction false} SealedIdGainsNoTyper(s: State, events: seq<Event>, id: string, b: nat)
    requires BaseInv(s) && Sealed(s, id) && AllLookedFor(s, events, id)
    requires Under(Run(s, events), b, id) && MayType(Run(s, events), b)
    ensures Under(s, b, id) && MayType(s, b)
    decreases |events|
  {
    if events != [] {
      var e := events[0];
      NextKeepsBase(s, e);
      NextKeepsSealed(s, e, id);
      SealedIdGainsNoTyper(Next(s, e), events[1..], id, b);
      SealedStepGainsNoTyper(s, e, id, b);
    }
  }

  lemma SealedStepGainsNoTyper(s: State, e: Event, id: string, b: nat)
    requires BaseInv(s) && Sealed(s, id) && BaseInv(Next(s, e)) && Under(Next(s, e), b, id) && MayType(Next(s, e), b)
    ensures Under(s, b, id) && MayType(s, b)
  {
    assert CommandAt(Next(s, e), b);
    UnderStays(s, e, b, id);
    if e.Send? || e.a != b { OthersUnmoved(s, e, b); } else { MoverGains(s, e); }
  }

  // ---------------------------------------------------------------- the receiver's procedure

  /** Everything a receiver does not control during one delivery. */
  datatype Environment = Environment(
    granted: bool,        // flock succeeds
    sighted: bool,        // looking for the claim file does not fail
    readable: bool,       // an existing claim parses
    claimWrite: Write,
    loaded: bool,         // tmux load-buffer succeeds
    accepted: bool,       // own scan and `validate_against_snapshot`
    effect: Effect,       // what tmux does with the command
    heard: bool,          // the tmux client's report arrives
    deliveredWrite: Write,
    releaseWrite: Write)

  datatype Outcome = Outcome(response: Response, claim: Option<Claim>, typed: bool)

  /** From an accepted scan on: the answer, the claim left behind and whether
      the terminal was touched. */
  function SubmitOutcome(request: Request, env: Environment): Outcome {
    var pending := Claim(Fingerprint(request), Pending);
    if env.effect.GuardRefused? && env.heard then
      Outcome(Rejected, if env.releaseWrite.NotWritten? then Some(pending) else None, false)
    else if env.effect.Typed? && env.heard then
      Outcome(if env.deliveredWrite.Durable? then Confirmed(request.id, false) else Uncertain(request.id),
              Some(if env.deliveredWrite.NotWritten? then pending else Claim(Fingerprint(request), Delivered)), true)
    else
      Outcome(Uncertain(request.id), Some(pending), Touches(env.effect))
  }

  /** The same from the moment no claim was seen; a claim that was missed stays
      until the new one is written over it. */
  function FreshOutcome(missed: Option<Claim>, request: Request, env: Environment): Outcome {
    var pending := Claim(Fingerprint(request), Pending);
    if !env.claimWrite.Durable? then
      Outcome(Rejected, if env.claimWrite.NotWritten? then missed else Some(pending), false)
    else if !env.loaded || !env.accepted then
      Outcome(Rejected, if env.releaseWrite.NotWritten? then Some(pending) else None, false)
    else SubmitOutcome(request, env)
  }

  /** The whole delivery, as the delivery rules of docs/handoff.md state it. */
  function DeliveryOutcome(prior: Option<Claim>, request: Request, env: Environment): Outcome {
    if !env.granted then Outcome(Rejected, prior, false)
    else if prior.None? || !env.sighted then FreshOutcome(prior, request, env)
    else
      Outcome(if !env.readable || prior.value.fingerprint != Fingerprint(request) then Rejected
              else if prior.value.state.Delivered? then Confirmed(request.id, true)
              else Uncertain(request.id),
              prior, false)
  }

  /** The claim is visible: it exists and looking for it does not fail. */
  predicate Sees(prior: Option<Claim>, env: Environment) { prior.Some? && env.sighted }

  /** tmux is handed the command. */
  predicate GoesOut(prior: Option<Claim>, env: Environment) {
    env.granted && !Sees(prior, env) && env.claimWrite.Durable? && env.loaded && env.accepted
  }

  /** What each delivery comes to, row by row: it is confirmed as new exactly when
      the whole text was typed, reported and recorded; confirmed as a duplicate
      exactly when a readable claim says this content was delivered; uncertain
      exactly when an earlier or this submission may have typed and nothing better
      is known; and refused otherwise. */
  lemma DeliveryTable(prior: Option<Claim>, request: Request, env: Environment)
    ensures var o, content := DeliveryOutcome(prior, request, env), request.(allowWorking := false);
      && (o.response == Confirmed(request.id, false) <==>
            GoesOut(prior, env) && env.effect.Typed? && env.heard && env.deliveredWrite.Durable?)
      && (o.response == Confirmed(request.id, true) <==>
            env.granted && env.sighted && env.readable && prior == Some(Claim(content, Delivered)))
      && (o.response == Uncertain(request.id) <==>
            || (env.granted && env.sighted && env.readable && prior == Some(Claim(content, Pending)))
            || (GoesOut(prior, env) && !(env.heard && env.effect.GuardRefused?)
                && !(env.heard && env.effect.Typed? && env.deliveredWrite.Durable?)))
      && (o.response in {Confirmed(request.id, false), Confirmed(request.id, true), Uncertain(request.id), Rejected})
      && (o.typed <==> GoesOut(prior, env) && (env.effect.Typed? || env.effect.TypedPartly?))
  {
  }

  /** And what it leaves of the claim: nothing is touched without the lock, behind a
      visible claim or when the claim could not be written; a refusal after that
      releases it if it can; otherwise it stays Pending until the whole text was
      reported as typed and that could be written. */
  lemma ClaimTable(prior: Option<Claim>, request: Request, env: Environment)
    ensures var o, content := DeliveryOutcome(prior, request, env), request.(allowWorking := false);
      if !env.granted || Sees(prior, env) || env.claimWrite.NotWritten? then o.claim == prior
      else if env.claimWrite.LandedUnconfirmed? then o.claim == Some(Claim(content, Pending))
      else if o.response.Rejected? then
        o.claim == if env.releaseWrite.NotWritten? then Some(Claim(content, Pending)) else None
      else if env.effect.Typed? && env.heard && !env.deliveredWrite.NotWritten? then
        o.claim == Some(Claim(content, Delivered))
      else o.claim == Some(Claim(content, Pending))
  {
  }

  /** `after` differs from `before` by attempt `a` having been answered so, and nothing else. */
  ghost predicate Answered(before: State, after: State, a: nat, outcome: Outcome)
    requires a < |before.attempts|
  {
    var id := before.attempts[a].request.id;
    && after.attempts == before.attempts[a := before.attempts[a].(phase := Answering(outcome.response))]
    && after.claims == (if outcome.claim.Some? then before.claims[id := outcome.claim.value] else before.claims - {id})
    && after.terminal == before.terminal + (if outcome.typed then [a] else [])
    && after.holder.None?
    && after.inFlight == before.inFlight
  }

  function ClaimOf(s: State, id: string): Option<Claim> {
    if id in s.claims then Some(s.claims[id]) else None
  }

  /** An answer given later in the procedure answers the state it started from. */
  lemma AnsweredFrom(s: State, p: Phase, t: State, a: nat, outcome: Outcome)
    requires a < |s.attempts| && Answered(Move(s, a, p), t, a, outcome)
    ensures Answered(s, t, a, outcome)
  {
  }

  /** The claim of the attempt's ID is its own, and Pending. */
  predicate OwnPending(s: State, a: nat)
    requires a < |s.attempts|
  {
    var request := s.attempts[a].request;
    ClaimOf(s, request.id) == Some(Claim(Fingerprint(request), Pending))
  }

  /** Reading a claim answers as the delivery rules say, and changes nothing. */
  lemma ClaimAnswers(s: State, a: nat, env: Environment)
    requires a < |s.attempts| && env.granted && env.sighted && s.attempts[a].request.id in s.claims
    requires s.attempts[a].phase.Examining? && s.holder == Some(a)
    ensures var request := s.attempts[a].request;
      Answered(s, Next(s, ReadClaim(a, env.readable)), a, DeliveryOutcome(ClaimOf(s, request.id), request, env))
  {
  }

  lemma LockIsHeld(events: seq<Event>, a: nat)
    requires var s := Run(INITIAL, events); a < |s.attempts| && Critical(s.attempts[a].phase)
    ensures Run(INITIAL, events).holder == Some(a)
  {
    Reachable(events);
    assert LockAt(Run(INITIAL, events), a);
  }

  /** One receiving account: its ledger, its lock and its terminal. */
  class ReceivingAccount {
    var state: State
    ghost var trace: seq<Event>

    constructor ()
      ensures state == INITIAL && trace == []
    {
      state, trace := INITIAL, [];
    }

    ghost predicate Valid()
      reads this
    {
      state == Run(INITIAL, trace)
    }

    method Perform(e: Event)
      requires Valid()
      modifies this
      ensures Valid() && state == Next(old(state), e) && trace == old(trace) + [e]
    {
      RunOver(INITIAL, trace, [e]);
      assert Run(state, [e]) == Next(state, e);
      state, trace := Next(state, e), trace + [e];
    }

    /** From the accepted scan to the answer. */
    method Submit(a: nat, env: Environment) returns (response: Response)
      requires Valid() && a < |state.attempts| && state.attempts[a].phase.Submitting?
      requires a !in state.inFlight
      requires OwnPending(state, a)
      modifies this
      ensures Valid()
      ensures Answered(old(state), state, a, SubmitOutcome(old(state.attempts[a].request), env))
      ensures response == state.attempts[a].phase.response
    {
      LockIsHeld(trace, a);
      ghost var start := state;
      Perform(Issue(a));
      assert state == Move(start, a, Awaiting).(inFlight := start.inFlight + {a});
      Perform(TmuxRuns(a, env.effect));
      ghost var typed := state;
      assert typed.attempts == start.attempts[a := start.attempts[a].(phase := Awaiting)];
      assert typed.inFlight == start.inFlight && typed.claims == start.claims;
      assert typed.terminal == start.terminal + (if Touches(env.effect) then [a] else []);
      assert a in typed.effects && typed.effects[a] == env.effect;
      response := Conclude(a, env);
    }

    /** From what tmux did with the command to the answer. */
    method Conclude(a: nat, env: Environment) returns (response: Response)
      requires Valid() && a < |state.attempts| && state.attempts[a].phase.Awaiting?
      requires a in state.effects && state.effects[a] == env.effect
      requires OwnPending(state, a)
      modifies this
      ensures Valid()
      ensures Answered(old(state), state, a, SubmitOutcome(old(state.attempts[a].request), env).(typed := false))
      ensures response == state.attempts[a].phase.response
    {
      LockIsHeld(trace, a);
      ghost var start := state;
      if env.heard && env.effect.Typed? {
        Perform(TmuxReports(a, SaysSubmitted));
        assert state == Move(start, a, Recording);
        response := Record(a, env.deliveredWrite);
        AnsweredFrom(start, Recording, state, a, SubmitOutcome(start.attempts[a].request, env).(typed := false));
      } else if env.heard && env.effect.GuardRefused? {
        Perform(TmuxReports(a, SaysRefused));
        assert state == Move(start, a, Releasing);
        response := Release(a, env.releaseWrite);
        AnsweredFrom(start, Releasing, state, a, SubmitOutcome(start.attempts[a].request, env).(typed := false));
      } else {
        Perform(TmuxReports(a, NoAnswer));
      }
      return state.attempts[a].phase.response;
    }

    /** From the claim that is missing, or was missed, to the answer. */
    method ClaimAndSubmit(a: nat, env: Environment) returns (response: Response)
      requires Valid() && a < |state.attempts| && state.attempts[a].phase.Claiming?
      requires a !in state.inFlight
      modifies this
      ensures Valid()
      ensures Answered(old(state), state, a, FreshOutcome(
                old(ClaimOf(state, state.attempts[a].request.id)), old(state.attempts[a].request), env))
      ensures response == state.attempts[a].phase.response
    {
      LockIsHeld(trace, a);
      ghost var start := state;
      Perform(WriteClaim(a, env.claimWrite));
      if !env.claimWrite.Durable? { return state.attempts[a].phase.response; }
      assert state == Move(start, a, Staging).(
        claims := start.claims[start.attempts[a].request.id := Claim(Fingerprint(start.attempts[a].request), Pending)]);
      response := StageAndSubmit(a, env);
    }

    /** From the written Pending claim to the answer. */
    method StageAndSubmit(a: nat, env: Environment) returns (response: Response)
      requires Valid() && a < |state.attempts| && state.attempts[a].phase.Staging?
      requires a !in state.inFlight && env.claimWrite.Durable?
      requires OwnPending(state, a)
      modifies this
      ensures Valid()
      ensures Answered(old(state), state, a, FreshOutcome(None, old(state.attempts[a].request), env))
      ensures response == state.attempts[a].phase.response
    {
      LockIsHeld(trace, a);
      ghost var start := state;
      Perform(Stage(a, env.loaded));
      if env.loaded {
        assert state == Move(start, a, Scanning);
        Perform(Scan(a, env.accepted));
        if env.accepted {
          assert state == Move(start, a, Submitting);
          response := Submit(a, env);
          return;
        }
      }
      assert state == Move(start, a, Releasing);
      response := Release(a, env.releaseWrite);
      AnsweredFrom(start, Releasing, state, a, FreshOutcome(None, start.attempts[a].request, env));
    }

    /** The end of a submission that tmux reported. */
    method Record(a: nat, write: Write) returns (response: Response)
      requires Valid() && a < |state.attempts| && state.attempts[a].phase.Recording? && OwnPending(state, a)
      modifies this
      ensures Valid()
      ensures var request := old(state.attempts[a].request);
        Answered(old(state), state, a, Outcome(
          if write.Durable? then Confirmed(request.id, false) else Uncertain(request.id),
          Some(Claim(Fingerprint(request), if write.NotWritten? then Pending else ClaimState.Delivered)), false))
      ensures response == state.attempts[a].phase.response
    {
      LockIsHeld(trace, a);
      Perform(RecordDelivered(a, write));
      return state.attempts[a].phase.response;
    }

    /** The end of a delivery that has typed nothing. */
    method Release(a: nat, write: Write) returns (response: Response)
      requires Valid() && a < |state.attempts| && state.attempts[a].phase.Releasing? && OwnPending(state, a)
      modifies this
      ensures Valid()
      ensures Answered(old(state), state, a, Outcome(
        Rejected, if write.NotWritten? then old(ClaimOf(state, state.attempts[a].request.id)) else None, false))
      ensures response == state.attempts[a].phase.response
    {
      LockIsHeld(trace, a);
      Perform(ReleaseClaim(a, write));
      return state.attempts[a].phase.response;
    }

    /** `deliver_with_submission`, undisturbed from the moment it is called. */
    method Deliver(a: nat, env: Environment) returns (response: Response)
      requires Valid() && a < |state.attempts| && state.attempts[a].phase.Waiting? && state.holder.None?
      modifies this
      ensures Valid()
      ensures Answered(old(state), state, a, DeliveryOutcome(
                old(ClaimOf(state, state.attempts[a].request.id)), old(state.attempts[a].request), env))
      ensures response == state.attempts[a].phase.response
    {
      Reachable(trace);
      assert CommandAt(state, a);
      Perform(Acquire(a, env.granted));
      if env.granted { response := Examine(a, env); }
      return state.attempts[a].phase.response;
    }

    /** From the granted lock to the answer. */
    method Examine(a: nat, env: Environment) returns (response: Response)
      requires Valid() && a < |state.attempts| && state.attempts[a].phase.Examining? && a !in state.inFlight
      requires env.granted
      modifies this
      ensures Valid()
      ensures Answered(old(state), state, a, DeliveryOutcome(
                old(ClaimOf(state, state.attempts[a].request.id)), old(state.attempts[a].request), env))
      ensures response == state.attempts[a].phase.response
    {
      LockIsHeld(trace, a);
      ghost var start := state;
      if env.sighted {
        Perform(ReadClaim(a, env.readable));
        if !state.attempts[a].phase.Claiming? {
          ClaimAnswers(start, a, env);
          return state.attempts[a].phase.response;
        }
      } else {
        Perform(MissClaim(a));
      }
      assert state == Move(start, a, Claiming);
      response := ClaimAndSubmit(a, env);
    }
  }
}
