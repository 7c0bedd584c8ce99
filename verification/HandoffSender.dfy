/** What senders of handoffs are told over whole runs of the delivery protocol,
    and which runs end in a delivery. */
module HandoffSender {
  import opened Wrappers
  import opened HandoffProtocol
  import opened HandoffDelivery

  // ---------------------------------------------------------------- statuses

  /** Event `e` tells the sender of attempt `a` this status: what its answer says,
      or that the peer lacks the operation, or that the exchange was lost. */
  predicate Tells(s: State, e: Event, a: nat, status: SentStatus) {
    Enabled(s, e) &&
    match e
    case PeerLacksOperation(x) => x == a && status.StatusIncompatible?
    case LoseExchange(x, _) => x == a && status.StatusUnconfirmed?
    case Hear(x) =>
      && x == a
      && (match s.attempts[a].phase.response
          case Confirmed(_, duplicate) => if duplicate then status.StatusDuplicate? else status.StatusDelivered?
          case Rejected => status.StatusFailed?
          case Uncertain(_) => status.StatusUnconfirmed?
          case Unsupported => status.StatusIncompatible?)
    case _ => false
  }

  /** One step settles a sender exactly by telling it. */
  lemma StepTells(s: State, e: Event, a: nat, status: SentStatus)
    requires Inv(s) && a < |Next(s, e).attempts|
    ensures Next(s, e).attempts[a].sender == Settled(status) <==>
      (a < |s.attempts| && s.attempts[a].sender == Settled(status)) || Tells(s, e, a, status)
  {
    if a < |s.attempts| {
      assert AnswerAt(s, a);
      if e.Send? || e.a != a { OthersUnmoved(s, e, a); } else { OwnStepTells(s, e, status); }
    }
  }

  lemma OwnStepTells(s: State, e: Event, status: SentStatus)
    requires !e.Send? && e.a < |s.attempts| && AnswerAt(s, e.a)
    ensures Next(s, e).attempts[e.a].sender == Settled(status) <==>
      s.attempts[e.a].sender == Settled(status) || Tells(s, e, e.a, status)
  {
  }

  /** Event `i` of the run tells the sender this status. */
  ghost predicate ToldAt(events: seq<Event>, i: nat, a: nat, status: SentStatus) {
    i < |events| && Tells(Run(INITIAL, events[..i]), events[i], a, status)
  }

  /** In every run a sender has a status exactly if some event told it so: it is
      Delivered or Duplicate once it hears that its handoff was confirmed, Failed
      once it hears a rejection, Incompatible or Unconfirmed likewise. */
  lemma {:induction false} ToldExactly(events: seq<Event>, a: nat, status: SentStatus)
    requires a < |Run(INITIAL, events).attempts|
    ensures Run(INITIAL, events).attempts[a].sender == Settled(status) <==>
      exists i: nat :: ToldAt(events, i, a, status)
    decreases |events|
  {
    if events != [] {
      var n := |events| - 1;
      var fewer := events[..n];
      assert events[..n + 1] == events;
      RunOneMore(INITIAL, events, n);
      Reachable(fewer);
      StepTells(Run(INITIAL, fewer), events[n], a, status);
      ToldEarlier(events, a, status);
      if a < |Run(INITIAL, fewer).attempts| {
        ToldExactly(fewer, a, status);
      } else {
        NobodyToldYet(fewer, a, status);
      }
    }
  }

  /** Some event told so if the last one did or an earlier one had. */
  lemma ToldEarlier(events: seq<Event>, a: nat, status: SentStatus)
    requires events != []
    ensures var n := |events| - 1;
      (exists i: nat :: ToldAt(events, i, a, status)) <==>
      Tells(Run(INITIAL, events[..n]), events[n], a, status) || exists i: nat :: ToldAt(events[..n], i, a, status)
  {
    var n := |events| - 1;
    var fewer := events[..n];
    if i: nat :| ToldAt(events, i, a, status) {
      if i < n {
        assert fewer[..i] == events[..i];
        assert ToldAt(fewer, i, a, status);
      }
    }
    if i: nat :| ToldAt(fewer, i, a, status) {
      assert fewer[..i] == events[..i];
      assert ToldAt(events, i, a, status);
    }
    if Tells(Run(INITIAL, fewer), events[n], a, status) { assert ToldAt(events, n, a, status); }
  }

  lemma NobodyToldYet(events: seq<Event>, a: nat, status: SentStatus)
    requires a >= |Run(INITIAL, events).attempts|
    ensures forall i: nat :: !ToldAt(events, i, a, status)
  {
    forall i: nat | i < |events| ensures !ToldAt(events, i, a, status) {
      assert events == events[..i] + events[i..];
      Reachable(events[..i]);
      RunOver(INITIAL, events[..i], events[i..]);
      HistoryIsKept(Run(INITIAL, events[..i]), events[i..]);
    }
  }

  // ---------------------------------------------------------------- deliveries

  /** The rest of a delivery from the command in the hands of tmux on. */
  function Concluding(a: nat): seq<Event> {
    [TmuxRuns(a, Typed), TmuxReports(a, SaysSubmitted), RecordDelivered(a, Durable), Reply(a), Hear(a)]
  }

  function Undisturbed(request: Request, a: nat): seq<Event> {
    [Send(request)] + (Driven(a) + Concluding(a))
  }

  lemma Concludes(s: State, a: nat)
    requires a < |s.attempts| && s.attempts[a].phase.Awaiting? && s.attempts[a].sender.Exchanging?
    requires s.holder == Some(a) && a in s.inFlight
    ensures var t, request := Run(s, Concluding(a)), s.attempts[a].request;
      && t.attempts ==
         s.attempts[a := Attempt(request, Replied(Confirmed(request.id, false)), Settled(StatusDelivered))]
      && t.terminal == s.terminal + [a] && t.holder.None? && t.inFlight == s.inFlight - {a}
      && t.claims == s.claims[request.id := Claim(Fingerprint(request), Delivered)]
  {
    var e, last := [TmuxRuns(a, Typed), TmuxReports(a, SaysSubmitted), RecordDelivered(a, Durable)],
        [Reply(a), Hear(a)];
    var s1 := Next(s, e[0]);
    var s2 := Next(s1, e[1]);
    var s3 := Next(s2, e[2]);
    assert Run(s2, e[2..]) == s3;
    assert Run(s1, e[1..]) == s3;
    RunOver(s, e, last);
    assert Concluding(a) == e + last;
    Answers(s3, a, last);
  }

  lemma Answers(s: State, a: nat, last: seq<Event>)
    requires a < |s.attempts| && s.attempts[a].phase.Answering? && s.attempts[a].sender.Exchanging?
    requires s.attempts[a].phase.response == Confirmed(s.attempts[a].request.id, false)
    requires last == [Reply(a), Hear(a)] && s.holder.None?
    ensures Run(s, last) == s.(attempts := s.attempts[a :=
      Attempt(s.attempts[a].request, Replied(s.attempts[a].phase.response), Settled(StatusDelivered))])
  {
    var s1 := Next(s, last[0]);
    assert Run(s1, last[1..]) == Next(s1, last[1]);
  }

  /** Whatever happened before: a handoff sent under an unclaimed ID while the lock
      is free, and disturbed by nothing, is typed once, recorded, and confirmed to
      its sender as Delivered. */
  lemma UndisturbedIsDelivered(before: seq<Event>, request: Request)
    requires request.version == HANDOFF_VERSION
    requires Run(INITIAL, before).holder.None? && request.id !in Run(INITIAL, before).claims
    ensures var s := Run(INITIAL, before);
      var a := |s.attempts|;
      var t := Run(INITIAL, before + Undisturbed(request, a));
      && |t.attempts| == a + 1 && t.attempts[a].request == request
      && t.attempts[a].sender == Settled(StatusDelivered)
      && t.terminal == s.terminal + [a] && t.holder.None?
      && t.claims == s.claims[request.id := Claim(Fingerprint(request), Delivered)]
  {
    var s := Run(INITIAL, before);
    var a := |s.attempts|;
    RunOver(INITIAL, before, Undisturbed(request, a));
    var s1 := Next(s, Send(request));
    RunOver(s, [Send(request)], Driven(a) + Concluding(a));
    assert Run(s, [Send(request)]) == s1;
    RunOver(s1, Driven(a), Concluding(a));
    var s2 := DriveOne(s1, a);
    KeepsTerminal(s1, a);
    Concludes(s2, a);
  }

  /** Driving an attempt to tmux types nothing. */
  lemma KeepsTerminal(s: State, a: nat)
    requires a < |s.attempts| && s.attempts[a].phase.Requested? && s.holder.None?
    requires s.attempts[a].request.version == HANDOFF_VERSION && s.attempts[a].request.id !in s.claims
    ensures Run(s, Driven(a)).terminal == s.terminal
  {
    var e := [Receive(a, true), Acquire(a, true), ReadClaim(a, true)];
    var s1 := Next(s, e[0]);
    var s2 := Next(s1, e[1]);
    var s3 := Next(s2, e[2]);
    assert Run(s2, e[2..]) == s3;
    assert Run(s1, e[1..]) == s3;
    RunOver(s, e, Issuing(a));
    IssuesFromClaiming(s3, a);
  }

  /** Sending once more under a claimed ID. */
  function Again(request: Request, a: nat): seq<Event> {
    [Send(request), Receive(a, true), Acquire(a, true), ReadClaim(a, true), Reply(a), Hear(a)]
  }

  /** Sending again under a claimed ID types nothing and leaves the claim: a
      delivered handoff is confirmed as a duplicate, an interrupted one stays
      unconfirmed, and other content is refused. */
  lemma ClaimedIdIsAnswered(before: seq<Event>, request: Request)
    requires request.version == HANDOFF_VERSION
    requires Run(INITIAL, before).holder.None? && request.id in Run(INITIAL, before).claims
    ensures var s := Run(INITIAL, before);
      var a := |s.attempts|;
      var t, claim := Run(INITIAL, before + Again(request, a)), s.claims[request.id];
      && |t.attempts| == a + 1 && t.terminal == s.terminal && t.claims == s.claims && t.holder.None?
      && t.attempts[a].sender == Settled(
           if claim == Claim(request.(allowWorking := false), ClaimState.Delivered) then StatusDuplicate
           else if claim == Claim(request.(allowWorking := false), Pending) then StatusUnconfirmed
           else StatusFailed)
  {
    var s := Run(INITIAL, before);
    var a := |s.attempts|;
    RunOver(INITIAL, before, Again(request, a));
    AnswersFrom(s, request);
  }

  lemma AnswersFrom(s: State, request: Request)
    requires request.version == HANDOFF_VERSION && s.holder.None? && request.id in s.claims
    ensures var a := |s.attempts|;
      var t, claim := Run(s, Again(request, a)), s.claims[request.id];
      && |t.attempts| == a + 1 && t.terminal == s.terminal && t.claims == s.claims && t.holder.None?
      && t.attempts[a].sender == Settled(
           if claim == Claim(request.(allowWorking := false), ClaimState.Delivered) then StatusDuplicate
           else if claim == Claim(request.(allowWorking := false), Pending) then StatusUnconfirmed
           else StatusFailed)
  {
    var a := |s.attempts|;
    var e := [Send(request), Receive(a, true), Acquire(a, true)];
    var s1 := Next(s, e[0]);
    var s2 := Next(s1, e[1]);
    var s3 := Next(s2, e[2]);
    assert Run(s2, e[2..]) == s3;
    assert Run(s1, e[1..]) == s3;
    assert Again(request, a) == e + Reading(a);
    RunOver(s, e, Reading(a));
    ReadingAnswers(s3, a);
  }

  function Reading(a: nat): seq<Event> {
    [ReadClaim(a, true), Reply(a), Hear(a)]
  }

  lemma ReadingAnswers(s: State, a: nat)
    requires a < |s.attempts| && s.attempts[a].phase.Examining? && s.attempts[a].sender.Exchanging?
    requires s.attempts[a].request.id in s.claims && s.holder == Some(a)
    ensures var request := s.attempts[a].request;
      var t, claim := Run(s, Reading(a)), s.claims[request.id];
      && |t.attempts| == |s.attempts| && t.terminal == s.terminal && t.claims == s.claims && t.holder.None?
      && t.attempts[a].sender == Settled(
           if claim == Claim(request.(allowWorking := false), ClaimState.Delivered) then StatusDuplicate
           else if claim == Claim(request.(allowWorking := false), Pending) then StatusUnconfirmed
           else StatusFailed)
  {
    var e := Reading(a);
    var s1 := Next(s, e[0]);
    var s2 := Next(s1, e[1]);
    var t := Next(s2, e[2]);
    assert Run(s2, e[2..]) == t;
    assert Run(s1, e[1..]) == t;
  }

  /** A request of another version is answered as unsupported, an invalid one as
      rejected, before any claim is looked at. */
  lemma RefusedAtOnce(s: State, a: nat, valid: bool)
    requires a < |s.attempts| && s.attempts[a].phase.Requested? && s.attempts[a].sender.Exchanging?
    requires s.attempts[a].request.version != HANDOFF_VERSION || !valid
    requires s.holder != Some(a)
    ensures var t, request := Run(s, [Receive(a, valid), Reply(a), Hear(a)]), s.attempts[a].request;
      && t.claims == s.claims && t.terminal == s.terminal && t.holder == s.holder
      && |t.attempts| == |s.attempts|
           && t.attempts[a].sender == Settled(if request.version != 1 then StatusIncompatible else StatusFailed)
  {
    var e := [Receive(a, valid), Reply(a), Hear(a)];
    var s1 := Next(s, e[0]);
    var s2 := Next(s1, e[1]);
    var t := Next(s2, e[2]);
    assert Run(s2, e[2..]) == t;
    assert Run(s1, e[1..]) == t;
  }
}
