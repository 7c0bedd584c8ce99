/**
 The handoff delivery protocol (src/handoff.rs) as a state machine.

 Any number of delivery attempts run concurrently against one durable claim
 ledger guarded by one lock.  An attempt is one sender exchange together with
 the receiver process that serves it.  Every event below is one atomic step of
 one attempt, of the tmux server, or of the failing environment, and any
 sequence of events is a run: an event that is not enabled changes nothing.
 */
module HandoffProtocol {
  import opened Wrappers

  const HANDOFF_VERSION: nat := 1
  const USAGE_EXIT_STATUS: int := 2

  /** `recipient` stands for every server, session, pane, process and provider
      identity field of the request. */
  datatype Request = Request(
    version: nat, id: string, recipient: string, text: string, allowWorking: bool)

  /** What the receiver hashes: the request with the working override cleared.
      The digest is taken to be injective, so the value itself is used. */
  function Fingerprint(request: Request): (f: Request)
    ensures f.id == request.id && f.recipient == request.recipient && f.text == request.text
    ensures f.version == request.version
  {
    request.(allowWorking := false)
  }

  /** Requests share a fingerprint exactly when they differ in nothing but the override. */
  lemma SameFingerprint(a: Request, b: Request)
    ensures Fingerprint(a) == Fingerprint(b) <==> a.(allowWorking := b.allowWorking) == b
  {
  }

  datatype ClaimState = Pending | Delivered
  datatype Claim = Claim(fingerprint: Request, state: ClaimState)

  datatype Response =
    | Confirmed(id: string, duplicate: bool)
    | Rejected
    | Uncertain(id: string)
    | Unsupported

  datatype SentStatus = StatusDelivered | StatusDuplicate | StatusFailed | StatusUnconfirmed | StatusIncompatible

  /** How a control exchange ended for the sender. */
  datatype Exchange = Answer(response: Response) | Exited(status: Option<int>) | Broken

  /** `classify_outcome`. */
  function ClassifyOutcome(request: Request, exchange: Exchange): SentStatus {
    match exchange
    case Answer(Confirmed(id, duplicate)) =>
      if id != request.id then StatusUnconfirmed
      else if duplicate then StatusDuplicate
      else StatusDelivered
    case Answer(Rejected) => StatusFailed
    case Answer(Uncertain(_)) => StatusUnconfirmed
    case Answer(Unsupported) => StatusIncompatible
    case Exited(Some(code)) => if code == USAGE_EXIT_STATUS then StatusIncompatible else StatusUnconfirmed
    case Exited(None) => StatusUnconfirmed
    case Broken => StatusUnconfirmed
  }

  /** The status each exchange calls for; everything else is unconfirmed. */
  predicate Reports(request: Request, exchange: Exchange, status: SentStatus) {
    && (status.StatusDelivered? <==> exchange == Answer(Confirmed(request.id, false)))
    && (status.StatusDuplicate? <==> exchange == Answer(Confirmed(request.id, true)))
    && (status.StatusFailed? <==> exchange == Answer(Rejected))
    && (status.StatusIncompatible? <==> exchange == Answer(Unsupported) || exchange == Exited(Some(2)))
  }

  lemma StatusExactly(request: Request, exchange: Exchange, status: SentStatus)
    ensures ClassifyOutcome(request, exchange) == status <==> Reports(request, exchange, status)
  {
  }

  /** Where the receiver process of an attempt stands. */
  datatype Phase =
    | Requested                      // the request is travelling
    | Absent                         // the peer has no handoff operation
    | Waiting                        // validated, waiting for delivery.lock
    | Examining                      // lock held, claim not read yet
    | Claiming                       // no claim found
    | Staging                        // Pending claim written
    | Scanning                       // text loaded into a tmux buffer
    | Submitting                     // the receiver's own scan accepted the target
    | Awaiting                       // submission command handed to tmux
    | Recording                      // tmux reported the submission
    | Releasing                      // proven that nothing was typed
    | Answering(response: Response)  // lock dropped, reply not printed
    | Replied(response: Response)    // reply printed
    | Crashed

  datatype SenderPhase = Exchanging | Settled(status: SentStatus)
  datatype Attempt = Attempt(request: Request, phase: Phase, sender: SenderPhase)

  /** What the tmux server did with a submission command. */
  datatype Effect = Typed | TypedPartly | GuardRefused | Dropped

  datatype State = State(
    attempts: seq<Attempt>,
    claims: map<string, Claim>,
    holder: Option<nat>,
    inFlight: set<nat>,        // commands handed to tmux and not yet run by it
    effects: map<nat, Effect>, // commands tmux has run
    terminal: seq<nat>)        // attempts whose command wrote terminal input, in order

  /** Outcome of one atomic file replacement or removal. */
  datatype Write = Durable | LandedUnconfirmed | NotWritten

  /** The submitting tmux client's report. */
  datatype Report = SaysSubmitted | SaysRefused | NoAnswer

  datatype Event =
    | Send(request: Request)
    | PeerLacksOperation(a: nat)
    | Receive(a: nat, valid: bool)
    | Acquire(a: nat, granted: bool)
    | ReadClaim(a: nat, readable: bool)
    | MissClaim(a: nat)              // looking for the claim file fails, which reads as absent
    | WriteClaim(a: nat, write: Write)
    | Stage(a: nat, loaded: bool)
    | Scan(a: nat, accepted: bool)
    | Issue(a: nat)
    | TmuxRuns(a: nat, effect: Effect)
    | TmuxReports(a: nat, report: Report)
    | RecordDelivered(a: nat, write: Write)
    | ReleaseClaim(a: nat, write: Write)
    | Reply(a: nat)
    | Hear(a: nat)
    | LoseExchange(a: nat, exchange: Exchange)
    | Crash(a: nat)

  const INITIAL := State([], map[], None, {}, map[], [])

  predicate Critical(p: Phase) {
    p.Examining? || p.Claiming? || OwnsClaim(p)
  }

  /** The attempt wrote the Pending claim of its ID and still runs under the lock. */
  predicate OwnsClaim(p: Phase) {
    p.Staging? || p.Scanning? || p.Submitting? || p.Awaiting? || p.Recording? || p.Releasing?
  }

  predicate Running(p: Phase) {
    Critical(p) || p.Requested? || p.Waiting? || p.Answering?
  }

  predicate Touches(e: Effect) { e.Typed? || e.TypedPartly? }

  function Move(s: State, a: nat, p: Phase): State
    requires a < |s.attempts|
  {
    s.(attempts := s.attempts[a := s.attempts[a].(phase := p)])
  }

  predicate Enabled(s: State, e: Event) {
    e.Send? || (
      && e.a < |s.attempts|
      && var p := s.attempts[e.a].phase;
         match e
         case PeerLacksOperation(a) => p.Requested? && s.attempts[a].sender.Exchanging?
         case Receive(_, _) => p.Requested?
         case Acquire(_, _) => p.Waiting? && s.holder.None?
         case ReadClaim(_, _) => p.Examining?
         case MissClaim(_) => p.Examining?
         case WriteClaim(_, _) => p.Claiming?
         case Stage(_, _) => p.Staging?
         case Scan(_, _) => p.Scanning?
         case Issue(_) => p.Submitting?
         case TmuxRuns(a, _) => a in s.inFlight
         case TmuxReports(a, report) =>
           && p.Awaiting?
           && (report.SaysSubmitted? ==> a in s.effects && s.effects[a].Typed?)
           && (report.SaysRefused? ==> a in s.effects && s.effects[a].GuardRefused?)
         case RecordDelivered(_, _) => p.Recording?
         case ReleaseClaim(_, _) => p.Releasing?
         case Reply(_) => p.Answering?
         case Hear(a) => p.Replied? && s.attempts[a].sender.Exchanging?
         case LoseExchange(a, exchange) =>
           // An exit status of 2 comes from a peer that never ran the operation.
           && s.attempts[a].sender.Exchanging?
           && (exchange.Broken? || (exchange.Exited? && exchange.status != Some(USAGE_EXIT_STATUS)))
         case Crash(_) => Running(p))
  }

  /** Where reading a claim leads. */
  function AfterReading(s: State, request: Request, readable: bool): Phase {
    if request.id !in s.claims then Claiming
    else
      var claim := s.claims[request.id];
      Answering(if !readable || claim.fingerprint != Fingerprint(request) then Rejected
                else if claim.state.Delivered? then Confirmed(request.id, true)
                else Uncertain(request.id))
  }

  /** The phase of the attempt that steps. */
  function NextPhase(s: State, e: Event): Phase
    requires !e.Send? && Enabled(s, e)
  {
    var request, p := s.attempts[e.a].request, s.attempts[e.a].phase;
    match e
    case PeerLacksOperation(_) => Absent
    case Receive(_, valid) =>
      if request.version != HANDOFF_VERSION then Answering(Unsupported)
      else if !valid then Answering(Rejected)
      else Waiting
    case Acquire(_, granted) => if granted then Examining else Answering(Rejected)
    case ReadClaim(_, readable) => AfterReading(s, request, readable)
    case MissClaim(_) => Claiming
    case WriteClaim(_, write) => if write.Durable? then Staging else Answering(Rejected)
    case Stage(_, loaded) => if loaded then Scanning else Releasing
    case Scan(_, accepted) => if accepted then Submitting else Releasing
    case Issue(_) => Awaiting
    case TmuxReports(_, report) =>
      if report.SaysSubmitted? then Recording
      else if report.SaysRefused? then Releasing
      else Answering(Uncertain(request.id))
    case RecordDelivered(_, write) =>
      Answering(if write.Durable? then Confirmed(request.id, false) else Uncertain(request.id))
    case ReleaseClaim(_, _) => Answering(Rejected)
    case Reply(_) => Replied(p.response)
    case Crash(_) => Crashed
    case _ => p
  }

  /** What the sender of the attempt that steps has been told. */
  function NextSender(s: State, e: Event): SenderPhase
    requires !e.Send? && Enabled(s, e)
  {
    var attempt := s.attempts[e.a];
    match e
    case PeerLacksOperation(_) => Settled(ClassifyOutcome(attempt.request, Exited(Some(USAGE_EXIT_STATUS))))
    case Hear(_) => Settled(ClassifyOutcome(attempt.request, Answer(attempt.phase.response)))
    case LoseExchange(_, exchange) => Settled(ClassifyOutcome(attempt.request, exchange))
    case _ => attempt.sender
  }

  /** Only the lock holder writes or removes a claim. */
  function NextClaims(s: State, e: Event): map<string, Claim>
    requires !e.Send? && Enabled(s, e)
  {
    var request := s.attempts[e.a].request;
    match e
    case WriteClaim(_, write) =>
      if write.NotWritten? then s.claims else s.claims[request.id := Claim(Fingerprint(request), Pending)]
    case RecordDelivered(_, write) =>
      if write.NotWritten? then s.claims else s.claims[request.id := Claim(Fingerprint(request), Delivered)]
    case ReleaseClaim(_, write) => if write.NotWritten? then s.claims else s.claims - {request.id}
    case _ => s.claims
  }

  /** The lock is taken by Acquire, and dropped by whoever answers or dies with it. */
  function NextHolder(s: State, e: Event): Option<nat>
    requires !e.Send? && Enabled(s, e)
  {
    if e.Acquire? then if e.granted then Some(e.a) else s.holder
    else if s.holder == Some(e.a) && !Critical(NextPhase(s, e)) then None
    else s.holder
  }

  /** One event.  Disabled events leave the state alone. */
  function Next(s: State, e: Event): State {
    if !Enabled(s, e) then s
    else if e.Send? then s.(attempts := s.attempts + [Attempt(e.request, Requested, Exchanging)])
    else if e.TmuxRuns? then TmuxRunsStep(s, e.a, e.effect)
    else
      var attempt := Attempt(s.attempts[e.a].request, NextPhase(s, e), NextSender(s, e));
      s.(attempts := s.attempts[e.a := attempt], claims := NextClaims(s, e), holder := NextHolder(s, e),
         inFlight := if e.Issue? then s.inFlight + {e.a} else s.inFlight)
  }

  /** tmux runs a command it was handed. */
  function TmuxRunsStep(s: State, a: nat, effect: Effect): State {
    s.(inFlight := s.inFlight - {a},
       effects := s.effects[a := effect],
       terminal := if Touches(effect) then s.terminal + [a] else s.terminal)
  }

  function Run(s: State, events: seq<Event>): State
    decreases |events|
  {
    if events == [] then s else Run(Next(s, events[0]), events[1..])
  }

  // ---------------------------------------------------------------- invariant

  /** Terminal input of this attempt happened, or tmux may still produce it. */
  predicate MayType(s: State, a: nat) {
    a in s.inFlight || (a in s.effects && Touches(s.effects[a]))
  }

  predicate PastIssue(p: Phase) {
    p.Awaiting? || p.Recording? || p.Releasing? || p.Answering? || p.Replied? || p.Crashed?
  }

  predicate LockAt(s: State, a: nat)
    requires a < |s.attempts|
  {
    Critical(s.attempts[a].phase) <==> s.holder == Some(a)
  }

  /** A command belongs to an attempt that issued it, and runs at most once. */
  predicate CommandAt(s: State, a: nat)
    requires a < |s.attempts|
  {
    var p := s.attempts[a].phase;
    && (a in s.inFlight ==> a !in s.effects)
    && (a in s.inFlight || a in s.effects ==> PastIssue(p))
    && (p.Recording? ==> a in s.effects && s.effects[a].Typed?)
    && (p.Releasing? ==> !MayType(s, a))
  }

  /** The owner of a claim finds it as it wrote it. */
  predicate OwnClaimAt(s: State, a: nat)
    requires a < |s.attempts|
  {
    var request := s.attempts[a].request;
    OwnsClaim(s.attempts[a].phase) ==>
      request.id in s.claims && s.claims[request.id] == Claim(Fingerprint(request), Pending)
  }

  /** What holds in every run, even when looking for claims fails. */
  ghost predicate BaseInv(s: State) {
    && (s.holder.Some? ==> s.holder.value < |s.attempts|)
    && (forall a | a in s.inFlight :: a < |s.attempts|)
    && (forall a | a in s.effects :: a < |s.attempts|)
    && (forall a: nat | a < |s.attempts| :: LockAt(s, a))
    && (forall a: nat | a < |s.attempts| :: CommandAt(s, a))
    && (forall a: nat | a < |s.attempts| :: OwnClaimAt(s, a))
  }

  lemma NextKeepsBounds(s: State, e: Event)
    requires BaseInv(s)
    ensures var t := Next(s, e);
      && (t.holder.Some? ==> t.holder.value < |t.attempts|)
      && (forall a | a in t.inFlight :: a < |t.attempts|)
      && (forall a | a in t.effects :: a < |t.attempts|)
  {
  }

  lemma NextKeepsLock(s: State, e: Event, x: nat)
    requires BaseInv(s) && x < |Next(s, e).attempts|
    ensures LockAt(Next(s, e), x)
  {
    if !e.Send? && e.a < |s.attempts| {
      assert LockAt(s, e.a);
      NextKeepsOwnLock(s, e);
    }
    if x < |s.attempts| {
      assert LockAt(s, x);
      if e.Send? || e.a != x { NextKeepsOtherLocks(s, e, x); }
    }
  }

  lemma NextKeepsOwnLock(s: State, e: Event)
    requires !e.Send? && e.a < |s.attempts| && LockAt(s, e.a)
    ensures LockAt(Next(s, e), e.a)
  {
  }

  lemma NextKeepsOtherLocks(s: State, e: Event, x: nat)
    requires x < |s.attempts| && LockAt(s, x) && (e.Send? || e.a != x)
    requires !e.Send? && e.a < |s.attempts| ==> LockAt(s, e.a)
    ensures LockAt(Next(s, e), x)
  {
  }

  lemma NextKeepsOwnCommand(s: State, e: Event)
    requires !e.Send? && e.a < |s.attempts| && CommandAt(s, e.a)
    ensures CommandAt(Next(s, e), e.a)
  {
  }

  lemma NextKeepsOtherCommands(s: State, e: Event, x: nat)
    requires x < |s.attempts| && CommandAt(s, x) && (e.Send? || e.a != x)
    ensures CommandAt(Next(s, e), x)
  {
  }

  lemma NextKeepsCommands(s: State, e: Event, x: nat)
    requires BaseInv(s) && x < |Next(s, e).attempts|
    ensures CommandAt(Next(s, e), x)
  {
    if x < |s.attempts| {
      assert CommandAt(s, x);
      if !e.Send? && e.a == x { NextKeepsOwnCommand(s, e); } else { NextKeepsOtherCommands(s, e, x); }
    }
  }

  /** The steps of one attempt leave another attempt alone. */
  lemma OthersUnmoved(s: State, e: Event, x: nat)
    requires x < |s.attempts| && (e.Send? || e.a != x)
    ensures Next(s, e).attempts[x] == s.attempts[x] && (MayType(Next(s, e), x) <==> MayType(s, x))
  {
  }

  /** Only the lock holder rewrites the ledger, and only at its own ID. */
  lemma LedgerFrame(s: State, e: Event, id: string)
    requires !e.Send? && e.a < |s.attempts| ==> LockAt(s, e.a)
    ensures var t := Next(s, e);
      ((id in s.claims <==> id in t.claims) && (id in s.claims ==> t.claims[id] == s.claims[id]))
      || (!e.Send? && e.a < |s.attempts| && s.holder == Some(e.a) && id == s.attempts[e.a].request.id
          && (s.attempts[e.a].phase.Claiming? || s.attempts[e.a].phase.Recording? || s.attempts[e.a].phase.Releasing?))
  {
  }

  lemma NextKeepsOwnClaim(s: State, e: Event)
    requires !e.Send? && e.a < |s.attempts| && OwnClaimAt(s, e.a)
    ensures OwnClaimAt(Next(s, e), e.a)
  {
  }

  lemma NextKeepsClaims(s: State, e: Event, x: nat)
    requires BaseInv(s) && x < |Next(s, e).attempts|
    ensures OwnClaimAt(Next(s, e), x)
  {
    if x < |s.attempts| {
      assert LockAt(s, x) && OwnClaimAt(s, x);
      if e.Send? || e.a != x {
        OthersUnmoved(s, e, x);
        LedgerFrame(s, e, s.attempts[x].request.id);
      } else {
        NextKeepsOwnClaim(s, e);
      }
    }
  }

  lemma NextKeepsBase(s: State, e: Event)
    requires BaseInv(s)
    ensures BaseInv(Next(s, e))
  {
    var t := Next(s, e);
    NextKeepsBounds(s, e);
    forall a: nat | a < |t.attempts| ensures LockAt(t, a) && CommandAt(t, a) && OwnClaimAt(t, a) {
      NextKeepsLock(s, e, a);
      NextKeepsCommands(s, e, a);
      NextKeepsClaims(s, e, a);
    }
  }

  // ---------------------------------------------------------------- safety of one ID

  /** This attempt is made under the ID. */
  predicate Under(s: State, a: nat, id: string) {
    a < |s.attempts| && s.attempts[a].request.id == id
  }

  /** Whatever may type is covered by a claim for its content. */
  predicate CoveredAt(s: State, a: nat)
    requires a < |s.attempts|
  {
    var request := s.attempts[a].request;
    MayType(s, a) ==> request.id in s.claims && s.claims[request.id].fingerprint == Fingerprint(request)
  }

  /** The attempt may become able to type without looking for a claim again. */
  predicate OnTheWay(p: Phase) { p.Claiming? || OwnsClaim(p) }

  /** Whatever may type is alone under its ID. */
  predicate Apart(s: State, a: nat, b: nat)
    requires a < |s.attempts| && b < |s.attempts|
  {
    a != b && MayType(s, a) ==> !MayType(s, b) && !OnTheWay(s.attempts[b].phase)
  }

  ghost predicate SafetyFor(s: State, id: string) {
    && BaseInv(s)
    && (forall a: nat | Under(s, a, id) :: CoveredAt(s, a))
    && (forall a: nat, b: nat | Under(s, a, id) && Under(s, b, id) :: Apart(s, a, b))
  }

  /** A claim of this ID that is missed does no harm when nothing under the ID may
      have typed. */
  predicate HarmlessFor(s: State, e: Event, id: string) {
    e.MissClaim? && Enabled(s, e) && Under(s, e.a, id) ==> forall b: nat | b < |s.attempts| && Under(s, b, id) ::
        !MayType(s, b)
  }

  /** No claim of this ID that exists is missed. */
  predicate LookedFor(s: State, e: Event, id: string) {
    e.MissClaim? && Enabled(s, e) && Under(s, e.a, id) ==> id !in s.claims
  }

  lemma UnderStays(s: State, e: Event, x: nat, id: string)
    requires Under(Next(s, e), x, id)
    ensures x < |s.attempts| ==> Under(s, x, id)
    ensures x >= |s.attempts| ==> Next(s, e).attempts[x].phase.Requested?
  {
  }

  lemma NextKeepsOwnCover(s: State, e: Event)
    requires !e.Send? && e.a < |s.attempts| && CommandAt(s, e.a) && OwnClaimAt(s, e.a) && CoveredAt(s, e.a)
    ensures CoveredAt(Next(s, e), e.a)
  {
  }

  lemma NextKeepsCovered(s: State, e: Event, x: nat, id: string)
    requires SafetyFor(s, id) && Under(s, x, id)
    ensures x < |Next(s, e).attempts| && CoveredAt(Next(s, e), x)
  {
    assert CommandAt(s, x) && CoveredAt(s, x);
    if e.Send? || e.a != x {
      if !e.Send? && Under(s, e.a, id) { assert Apart(s, x, e.a); }
      OthersUnmoved(s, e, x);
      LedgerFrame(s, e, id);
    } else {
      NextKeepsOwnCover(s, e);
    }
  }

  /** What a step may add to its own attempt. */
  lemma MoverGains(s: State, e: Event)
    requires !e.Send? && e.a < |s.attempts|
    ensures MayType(Next(s, e), e.a) ==> MayType(s, e.a) || OwnsClaim(s.attempts[e.a].phase)
    ensures OnTheWay(Next(s, e).attempts[e.a].phase) ==>
      OnTheWay(s.attempts[e.a].phase)
      || (Enabled(s, e) && (e.MissClaim? || (e.ReadClaim? && s.attempts[e.a].request.id !in s.claims)))
  {
  }

  /** A step of `e.a` never makes two attempts under one ID able to type. */
  lemma NextKeepsApartFromMover(s: State, e: Event, x: nat, id: string)
    requires SafetyFor(s, id) && HarmlessFor(s, e, id)
    requires !e.Send? && Under(s, e.a, id) && Under(s, x, id) && x != e.a
    ensures Apart(Next(s, e), x, e.a) && Apart(Next(s, e), e.a, x)
  {
    assert LockAt(s, x) && LockAt(s, e.a) && CoveredAt(s, x) && Apart(s, x, e.a) && Apart(s, e.a, x);
    OthersUnmoved(s, e, x);
    MoverGains(s, e);
  }

  lemma NextKeepsApart(s: State, e: Event, x: nat, y: nat, id: string)
    requires SafetyFor(s, id) && HarmlessFor(s, e, id) && Under(s, x, id) && Under(s, y, id)
    ensures Apart(Next(s, e), x, y)
  {
    if x != y {
      assert Apart(s, x, y);
      if !e.Send? && e.a == x {
        NextKeepsApartFromMover(s, e, y, id);
      } else if !e.Send? && e.a == y {
        NextKeepsApartFromMover(s, e, x, id);
      } else {
        OthersUnmoved(s, e, x);
        OthersUnmoved(s, e, y);
      }
    }
  }

  /** An attempt that has just been made cannot type and is not on the way. */
  lemma NewIsApart(s: State, x: nat, y: nat)
    requires BaseInv(s) && x < |s.attempts| && y < |s.attempts|
    requires s.attempts[x].phase.Requested? || s.attempts[y].phase.Requested?
    ensures Apart(s, x, y) && (s.attempts[x].phase.Requested? ==> CoveredAt(s, x))
  {
    assert CommandAt(s, x) && CommandAt(s, y);
  }

  lemma NextKeepsSafety(s: State, e: Event, id: string)
    requires SafetyFor(s, id) && HarmlessFor(s, e, id)
    ensures SafetyFor(Next(s, e), id)
  {
    var t := Next(s, e);
    NextKeepsBase(s, e);
    forall a: nat | Under(t, a, id) ensures CoveredAt(t, a) {
      UnderStays(s, e, a, id);
      if a < |s.attempts| { NextKeepsCovered(s, e, a, id); } else { NewIsApart(t, a, a); }
    }
    forall a: nat, b: nat | Under(t, a, id) && Under(t, b, id) ensures Apart(t, a, b) {
      UnderStays(s, e, a, id);
      UnderStays(s, e, b, id);
      if a < |s.attempts| && b < |s.attempts| { NextKeepsApart(s, e, a, b, id); } else { NewIsApart(t, a, b); }
    }
  }

  // ---------------------------------------------------------------- truthful answers

  /** Attempt `b` submitted the text of this fingerprint in full. */
  predicate SubmittedBy(s: State, b: nat, fingerprint: Request) {
    b < |s.attempts| && b in s.effects && s.effects[b].Typed? && Fingerprint(s.attempts[b].request) == fingerprint
  }

  ghost predicate WholeSubmission(s: State, fingerprint: Request) {
    exists b: nat :: SubmittedBy(s, b, fingerprint)
  }

  ghost predicate DeliveredAt(s: State, id: string)
    requires id in s.claims
  {
    && s.claims[id].fingerprint.id == id
    && (s.claims[id].state.Delivered? ==> WholeSubmission(s, s.claims[id].fingerprint))
  }

  /** An answer is truthful about the terminal. */
  ghost predicate Truthful(s: State, a: nat, response: Response)
    requires a < |s.attempts|
  {
    var request := s.attempts[a].request;
    match response
    case Confirmed(id, duplicate) =>
      && id == request.id
      && WholeSubmission(s, Fingerprint(request))
      && (!duplicate ==> SubmittedBy(s, a, Fingerprint(request)))
      && (duplicate ==> a !in s.inFlight && a !in s.effects)
    case Rejected => !MayType(s, a)
    case Uncertain(id) => id == request.id
    case Unsupported => !MayType(s, a)
  }

  predicate StatusMatches(attempt: Attempt) {
    attempt.sender.Settled? ==>
      match attempt.sender.status
      case StatusDelivered => attempt.phase == Replied(Confirmed(attempt.request.id, false))
      case StatusDuplicate => attempt.phase == Replied(Confirmed(attempt.request.id, true))
      case StatusFailed => attempt.phase == Replied(Rejected)
      case StatusIncompatible => attempt.phase == Replied(Unsupported) || attempt.phase.Absent?
      case StatusUnconfirmed => true
  }

  ghost predicate AnswerAt(s: State, a: nat)
    requires a < |s.attempts|
  {
    var attempt := s.attempts[a];
    && (attempt.phase.Answering? || attempt.phase.Replied? ==> Truthful(s, a, attempt.phase.response))
    && StatusMatches(attempt)
  }

  ghost predicate TerminalInv(s: State) {
    && (forall i: nat | i < |s.terminal| :: s.terminal[i] in s.effects && Touches(s.effects[s.terminal[i]]))
    && (forall i: nat, j: nat | i < j < |s.terminal| :: s.terminal[i] != s.terminal[j])
    && (forall a | a in s.effects && Touches(s.effects[a]) :: a in s.terminal)
  }

  ghost predicate Inv(s: State) {
    && BaseInv(s)
    && TerminalInv(s)
    && (forall id | id in s.claims :: DeliveredAt(s, id))
    && (forall a: nat | a < |s.attempts| :: AnswerAt(s, a))
  }

  lemma NextKeepsTerminal(s: State, e: Event)
    requires BaseInv(s) && TerminalInv(s)
    ensures TerminalInv(Next(s, e)) && s.terminal <= Next(s, e).terminal
  {
    if e.TmuxRuns? && Enabled(s, e) {
      assert CommandAt(s, e.a);
      TmuxRunsKeepsTerminal(s, e.a, e.effect);
    } else {
      OthersKeepTerminal(s, e);
    }
  }

  lemma OthersKeepTerminal(s: State, e: Event)
    requires !(e.TmuxRuns? && Enabled(s, e))
    ensures Next(s, e).terminal == s.terminal && Next(s, e).effects == s.effects
  {
  }

  lemma TmuxRunsKeepsTerminal(s: State, a: nat, effect: Effect)
    requires TerminalInv(s) && a !in s.effects
    ensures TerminalInv(TmuxRunsStep(s, a, effect)) && s.terminal <= TmuxRunsStep(s, a, effect).terminal
  {
    var t := TmuxRunsStep(s, a, effect);
    forall x | x in t.effects && Touches(t.effects[x]) ensures x in t.terminal {
      if x == a { assert t.terminal[|s.terminal|] == x; }
    }
  }

  lemma NextKeepsSubmission(s: State, e: Event, fingerprint: Request)
    requires BaseInv(s) && WholeSubmission(s, fingerprint)
    ensures WholeSubmission(Next(s, e), fingerprint)
  {
    var b: nat :| SubmittedBy(s, b, fingerprint);
    NextKeepsSubmitter(s, e, b, fingerprint);
  }

  lemma NextKeepsSubmitter(s: State, e: Event, b: nat, fingerprint: Request)
    requires BaseInv(s) && SubmittedBy(s, b, fingerprint)
    ensures SubmittedBy(Next(s, e), b, fingerprint)
  {
    assert CommandAt(s, b);
  }

  lemma NextKeepsDelivered(s: State, e: Event, id: string)
    requires Inv(s) && id in Next(s, e).claims
    ensures DeliveredAt(Next(s, e), id)
  {
    if e.RecordDelivered? && Enabled(s, e) {
      RecordedIsSubmitted(s, e);
    } else {
      ClaimComesFrom(s, e, id);
    }
    if id in s.claims {
      assert DeliveredAt(s, id);
      if s.claims[id].state.Delivered? { NextKeepsSubmission(s, e, s.claims[id].fingerprint); }
    }
  }

  lemma RecordedIsSubmitted(s: State, e: Event)
    requires BaseInv(s) && e.RecordDelivered? && Enabled(s, e)
    ensures WholeSubmission(Next(s, e), Fingerprint(s.attempts[e.a].request))
  {
    assert CommandAt(s, e.a);
    assert SubmittedBy(Next(s, e), e.a, Fingerprint(s.attempts[e.a].request));
  }

  /** Any other step leaves a claim as it is or writes a Pending one. */
  lemma ClaimComesFrom(s: State, e: Event, id: string)
    requires id in Next(s, e).claims && !(e.RecordDelivered? && Enabled(s, e))
    ensures var claim := Next(s, e).claims[id];
      (id in s.claims && s.claims[id] == claim) || (claim.state.Pending? && claim.fingerprint.id == id)
  {
  }

  /** An attempt that cannot type and is past submitting never types. */
  lemma NextKeepsQuiet(s: State, e: Event, a: nat)
    requires a < |s.attempts| && !s.attempts[a].phase.Submitting?
    ensures !MayType(s, a) ==> !MayType(Next(s, e), a)
    ensures a !in s.inFlight && a !in s.effects ==> a !in Next(s, e).inFlight && a !in Next(s, e).effects
  {
  }

  lemma NextKeepsAnswered(s: State, e: Event, a: nat)
    requires a < |s.attempts| && (s.attempts[a].phase.Answering? || s.attempts[a].phase.Replied?)
    ensures var p, q := s.attempts[a].phase, Next(s, e).attempts[a].phase;
      q == p || q == Replied(p.response) || (p.Answering? && q.Crashed?)
    ensures Next(s, e).attempts[a].request == s.attempts[a].request
  {
  }

  lemma NextKeepsStatus(s: State, e: Event, a: nat)
    requires a < |s.attempts| && (s.attempts[a].phase.Answering? || s.attempts[a].phase.Replied?)
    requires StatusMatches(s.attempts[a])
    ensures StatusMatches(Next(s, e).attempts[a])
  {
  }

  lemma NextKeepsTruthful(s: State, e: Event, a: nat)
    requires Inv(s) && a < |s.attempts|
    requires s.attempts[a].phase.Answering? || s.attempts[a].phase.Replied?
    ensures Truthful(Next(s, e), a, s.attempts[a].phase.response)
  {
    var response := s.attempts[a].phase.response;
    assert AnswerAt(s, a) && Truthful(s, a, response);
    var fingerprint := Fingerprint(s.attempts[a].request);
    NextKeepsAnswered(s, e, a);
    NextKeepsQuiet(s, e, a);
    match response
    case Confirmed(id, duplicate) =>
      NextKeepsSubmission(s, e, fingerprint);
      if !duplicate { NextKeepsSubmitter(s, e, a, fingerprint); }
    case Uncertain(_) =>
    case Rejected =>
    case Unsupported =>
  }

  lemma ClaimAnswerIsTruthful(s: State, e: Event)
    requires Inv(s) && Enabled(s, e) && e.ReadClaim? && Next(s, e).attempts[e.a].phase.Answering?
    ensures Truthful(Next(s, e), e.a, Next(s, e).attempts[e.a].phase.response)
  {
    assert CommandAt(s, e.a) && DeliveredAt(s, s.attempts[e.a].request.id);
    if Next(s, e).attempts[e.a].phase.response.Confirmed? {
      NextKeepsSubmission(s, e, Fingerprint(s.attempts[e.a].request));
    }
  }

  lemma RecordAnswerIsTruthful(s: State, e: Event)
    requires Inv(s) && Enabled(s, e) && e.RecordDelivered?
    ensures Truthful(Next(s, e), e.a, Next(s, e).attempts[e.a].phase.response)
  {
    assert CommandAt(s, e.a);
    assert SubmittedBy(Next(s, e), e.a, Fingerprint(s.attempts[e.a].request));
  }

  /** Every other answer is uncertain, or refuses an attempt that cannot type. */
  lemma OtherAnswerIsTruthful(s: State, e: Event)
    requires !e.Send? && e.a < |s.attempts| && CommandAt(s, e.a)
    requires Enabled(s, e) && Next(s, e).attempts[e.a].phase.Answering? && !s.attempts[e.a].phase.Answering?
    requires !e.ReadClaim? && !e.RecordDelivered?
    ensures Truthful(Next(s, e), e.a, Next(s, e).attempts[e.a].phase.response)
  {
  }

  /** The moment an attempt gets its answer, that answer is truthful. */
  lemma NewAnswerIsTruthful(s: State, e: Event)
    requires Inv(s) && Enabled(s, e) && !e.Send? && Next(s, e).attempts[e.a].phase.Answering?
    requires !s.attempts[e.a].phase.Answering?
    ensures Truthful(Next(s, e), e.a, Next(s, e).attempts[e.a].phase.response)
  {
    assert CommandAt(s, e.a);
    match e
    case ReadClaim(_, _) => ClaimAnswerIsTruthful(s, e);
    case RecordDelivered(_, _) => RecordAnswerIsTruthful(s, e);
    case _ => OtherAnswerIsTruthful(s, e);
  }

  lemma NextKeepsUnanswered(s: State, e: Event)
    requires !e.Send? && e.a < |s.attempts|
    requires !s.attempts[e.a].phase.Answering? && !s.attempts[e.a].phase.Replied?
    requires StatusMatches(s.attempts[e.a])
    ensures StatusMatches(Next(s, e).attempts[e.a]) && !Next(s, e).attempts[e.a].phase.Replied?
    ensures !Enabled(s, e) ==> Next(s, e) == s
  {
  }

  lemma NextKeepsOthersAnswers(s: State, e: Event, a: nat)
    requires Inv(s) && a < |s.attempts| && (e.Send? || e.a != a)
    ensures AnswerAt(Next(s, e), a)
  {
    assert AnswerAt(s, a);
    OthersUnmoved(s, e, a);
    if s.attempts[a].phase.Answering? || s.attempts[a].phase.Replied? { NextKeepsTruthful(s, e, a); }
  }

  lemma NextKeepsAnswers(s: State, e: Event, a: nat)
    requires Inv(s) && a < |Next(s, e).attempts|
    ensures AnswerAt(Next(s, e), a)
  {
    if a >= |s.attempts| {
      assert Next(s, e).attempts[a] == Attempt(e.request, Requested, Exchanging);
    } else if e.Send? || e.a != a {
      NextKeepsOthersAnswers(s, e, a);
    } else {
      assert AnswerAt(s, a);
      if s.attempts[a].phase.Answering? || s.attempts[a].phase.Replied? {
        NextKeepsAnswered(s, e, a);
        NextKeepsStatus(s, e, a);
        NextKeepsTruthful(s, e, a);
      } else {
        NextKeepsUnanswered(s, e);
        if Next(s, e).attempts[a].phase.Answering? { NewAnswerIsTruthful(s, e); }
      }
    }
  }

  lemma NextKeepsInv(s: State, e: Event)
    requires Inv(s)
    ensures Inv(Next(s, e))
  {
    var t := Next(s, e);
    NextKeepsBase(s, e);
    NextKeepsTerminal(s, e);
    forall id | id in t.claims ensures DeliveredAt(t, id) { NextKeepsDelivered(s, e, id); }
    forall a: nat | a < |t.attempts| ensures AnswerAt(t, a) { NextKeepsAnswers(s, e, a); }
  }

  /** Requests are fixed, a settled sender stays settled, and nobody is forgotten. */
  lemma NextKeepsHistory(s: State, e: Event, a: nat)
    requires a < |s.attempts|
    ensures a < |Next(s, e).attempts|
    ensures Next(s, e).attempts[a].request == s.attempts[a].request
    ensures s.attempts[a].sender.Settled? ==> Next(s, e).attempts[a].sender == s.attempts[a].sender
  {
  }

  // ---------------------------------------------------------------- sealed IDs

  /** The ID has a claim, and nobody under it is on the way to typing. */
  ghost predicate Sealed(s: State, id: string) {
    id in s.claims && forall a: nat | Under(s, a, id) :: !OnTheWay(s.attempts[a].phase)
  }

  /** When the lock holder returns, nobody is on the way. */
  lemma NobodyOnTheWay(s: State, e: Event)
    requires BaseInv(s) && Enabled(s, e) && !e.Send? && s.holder == Some(e.a)
    requires Next(s, e).attempts[e.a].phase.Answering?
    ensures var t := Next(s, e); forall x: nat | x < |t.attempts| :: !OnTheWay(t.attempts[x].phase)
  {
    forall x: nat | x < |s.attempts| ensures !OnTheWay(Next(s, e).attempts[x].phase) {
      assert LockAt(s, x);
      if x != e.a { OthersUnmoved(s, e, x); }
    }
  }

  /** Event `e` gives its attempt an answer that confirms or leaves open. */
  predicate Settles(s: State, e: Event) {
    && !e.Send? && Enabled(s, e) && !s.attempts[e.a].phase.Answering?
    && var p := Next(s, e).attempts[e.a].phase;
       p.Answering? && (p.response.Confirmed? || p.response.Uncertain?)
  }

  /** Such an answer seals its ID, whatever was missed before. */
  lemma SettlingSeals(s: State, e: Event)
    requires BaseInv(s) && Settles(s, e)
    ensures Sealed(Next(s, e), s.attempts[e.a].request.id)
  {
    assert LockAt(s, e.a) && OwnClaimAt(s, e.a);
    SettlingHolds(s, e);
    NobodyOnTheWay(s, e);
  }

  lemma SettlingHolds(s: State, e: Event)
    requires Settles(s, e) && LockAt(s, e.a) && OwnClaimAt(s, e.a)
    ensures s.holder == Some(e.a) && s.attempts[e.a].request.id in Next(s, e).claims
  {
  }

  /** Sealing lasts as long as no claim of the ID is missed. */
  lemma NextKeepsSealed(s: State, e: Event, id: string)
    requires BaseInv(s) && Sealed(s, id) && LookedFor(s, e, id)
    ensures Sealed(Next(s, e), id)
  {
    var t := Next(s, e);
    if !e.Send? && e.a < |s.attempts| { assert LockAt(s, e.a); }
    LedgerFrame(s, e, id);
    forall a: nat | Under(t, a, id) ensures !OnTheWay(t.attempts[a].phase) {
      UnderStays(s, e, a, id);
      if a < |s.attempts| {
        if e.Send? || e.a != a { OthersUnmoved(s, e, a); } else { MoverGains(s, e); }
      }
    }
  }

  // ---------------------------------------------------------------- whole runs

  /** Every claim of this ID that was missed in the run was missed harmlessly. */
  ghost predicate AllHarmlessFor(s: State, events: seq<Event>, id: string)
    decreases |events|
  {
    events == [] || (HarmlessFor(s, events[0], id) && AllHarmlessFor(Next(s, events[0]), events[1..], id))
  }

  /** No claim of this ID was missed in the run. */
  ghost predicate AllLookedFor(s: State, events: seq<Event>, id: string)
    decreases |events|
  {
    events == [] || (LookedFor(s, events[0], id) && AllLookedFor(Next(s, events[0]), events[1..], id))
  }

  lemma {:induction false} RunKeepsInv(s: State, events: seq<Event>)
    requires Inv(s)
    ensures Inv(Run(s, events))
    decreases |events|
  {
    if events != [] {
      NextKeepsInv(s, events[0]);
      RunKeepsInv(Next(s, events[0]), events[1..]);
    }
  }

  lemma {:induction false} RunKeepsSafety(s: State, events: seq<Event>, id: string)
    requires SafetyFor(s, id) && AllHarmlessFor(s, events, id)
    ensures SafetyFor(Run(s, events), id)
    decreases |events|
  {
    if events != [] {
      NextKeepsSafety(s, events[0], id);
      RunKeepsSafety(Next(s, events[0]), events[1..], id);
    }
  }
}
