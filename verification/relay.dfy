// The bodies of the two submission handlers (api/send.rs, api/send_bulk.rs): limiter, validator, status
// store and SMTP put together.
//
// The methods run without interference. What `SendMail` does to the store is shown here to be a schedule of the handler
// machine of `Lifecycle`; for the methods of `send_bulk` and the protocol of `BulkSend` this is done in `BulkRelays`.
module Relays {
  import opened Prelude
  import opened Statuses
  import opened MemoryStores
  import opened RateLimiters
  import opened Policies
  import opened Validations
  import opened RecipientDomains
  import opened Handlers
  import opened Lifecycle
  import BucketTables
  import BulkSend

  datatype Settings = Settings(
    mail: MailConfig, keys: seq<ApiKeyConfig>, isAddress: string -> bool,
    ttlSeconds: nat, maxRequestBodyBytes: nat, maxBulkMessages: nat)

  function ContextFor(cfg: Settings, who: Caller): Context {
    Context(cfg.mail, FindKey(cfg.keys, who.keyId), cfg.isAddress)
  }

  // A raw request: `payload` is what its body parses to.
  datatype Incoming = Incoming(contentType: string, bodyBytes: nat, payload: Option<MailRequest>)

  datatype SmtpAnswer = Took | Refused5xx | NotReached

  // The four readings of the store's clock.
  datatype Clock = Clock(arrival: Instant, described: Instant, started: Instant, settled: Instant)

  // --------------------------------------------------------------------------
  // How a message ends
  // --------------------------------------------------------------------------

  predicate IsJson(contentType: string) {
    "application/json" <= contentType
  }

  // What stops a message before SMTP, if anything: its content, then the mail builder.
  ghost function ContentProblem(ctx: Context, req: MailRequest, builds: bool): Option<Ending> {
    if !Acceptable(ctx, req)
    then Some(TurnedAway(Validation, if FeaturesOk(ctx, req) then ValidationError else FeatureDisabledError))
    else if !builds then Some(TurnedAway(Building, InternalFailure))
    else None
  }

  function AnswerEnding(smtp: SmtpAnswer): Ending {
    match smtp
    case Took => Delivered
    case Refused5xx => Undelivered(SmtpRejectedError)
    case NotReached => Undelivered(SmtpUnavailableError)
  }

  ghost function ContentEnding(ctx: Context, req: MailRequest, builds: bool, smtp: SmtpAnswer): Ending {
    var problem := ContentProblem(ctx, req, builds);
    if problem.Some? then problem.value else AnswerEnding(smtp)
  }

  // What stops a raw request before the limiter is asked.
  function EnvelopeProblem(cfg: Settings, req: Incoming): Option<Ending> {
    if !IsJson(req.contentType) then Some(TurnedAway(Admission, UnsupportedMediaTypeError))
    else if req.bodyBytes > cfg.maxRequestBodyBytes then Some(TurnedAway(Admission, PayloadTooLargeError))
    else if req.payload.None? then Some(TurnedAway(Admission, BadRequestError))
    else None
  }

  function LimitProblem(refusal: Option<RateLimited>): Option<Ending> {
    if refusal.Some? then Some(TurnedAway(Admission, RateLimitedError(refusal.value.tier))) else None
  }

  ghost function SingleEnding(cfg: Settings, l: Limiter, who: Caller, req: Incoming, at: CheckTimes, builds: bool,
                              smtp: SmtpAnswer): Ending
    requires RateLimiters.Valid(l)
  {
    if EnvelopeProblem(cfg, req).Some? then EnvelopeProblem(cfg, req).value
    else
      var limited := LimitProblem(AskTiers(l, who, at).refusal);
      if limited.Some? then limited.value else ContentEnding(ContextFor(cfg, who), req.payload.value, builds, smtp)
  }

  // A request stopped by its envelope costs no token.
  ghost function LimiterAfterSingle(cfg: Settings, l: Limiter, who: Caller, req: Incoming, at: CheckTimes): Limiter
    requires RateLimiters.Valid(l)
  {
    if EnvelopeProblem(cfg, req).Some? then l else AskTiers(l, who, at).limiter
  }

  // --------------------------------------------------------------------------
  // What a message leaves in the store
  // --------------------------------------------------------------------------

  datatype Recipients = Recipients(domains: seq<string>, count: nat)

  // Each continues from the store `p` that already holds the record.
  function Described(p: Store, record: Record, to: Recipients, clock: Clock): Store {
    SetMetadata(p, record.id, record.owner, to.domains, to.count, clock.described)
  }

  function Settled(p: Store, kind: Kind, record: Record, ending: Ending, clock: Clock): Store {
    UpdateStatus(p, record.id, record.owner, LastUpdate(kind, ending), clock.settled)
  }

  function Submitted(p: Store, kind: Kind, record: Record, ending: Ending, clock: Clock): Store {
    Settled(UpdateStatus(p, record.id, record.owner, StartUpdate(kind), clock.started), kind, record, ending, clock)
  }

  function Continued(p: Store, kind: Kind, record: Record, ending: Ending, to: Recipients, clock: Clock): Store {
    match ending
    case TurnedAway(Building, _) => Settled(Described(p, record, to, clock), kind, record, ending, clock)
    case TurnedAway(_, _) => Settled(p, kind, record, ending, clock)
    case _ => Submitted(Described(p, record, to, clock), kind, record, ending, clock)
  }

  // The whole of it.
  function Trail(s: Store, kind: Kind, record: Record, ending: Ending, to: Recipients, clock: Clock,
                 victim: Id): Store {
    Continued(MemoryStores.Put(s, record, victim), kind, record, ending, to, clock)
  }

  ghost predicate RecipientsFit(req: MailRequest, to: Recipients) {
    && StrictlySorted(to.domains) && (forall x :: x in to.domains <==> NamesDomain(req.to + ListOf(req.cc), x))
    && to.count == |req.to| + |ListOf(req.cc)|
  }

  ghost predicate InOrder(clock: Clock) {
    clock.arrival <= clock.described <= clock.started <= clock.settled
  }

  // One more event at the end of a schedule.
  lemma {:induction false} Extend(sys: System, events: seq<Lifecycle.Event>, e: Lifecycle.Event)
    requires Schedule(sys, events) && Lifecycle.Enabled(After(sys, events), e)
    ensures Schedule(sys, events + [e]) && After(sys, events + [e]) == Lifecycle.Next(After(sys, events), e)
    decreases |events|
  {
    if events == [] {
      assert Schedule(Lifecycle.Next(sys, e), []);
      assert [e][1..] == [];
    } else {
      Extend(Lifecycle.Next(sys, events[0]), events[1..], e);
      assert (events + [e])[1..] == events[1..] + [e];
    }
  }

  // The schedule has brought the handler to `h`, the store to `s` and the clock to `now`, and nothing else moved.
  ghost predicate Reaches(sys: System, events: seq<Lifecycle.Event>, h: Handler, s: Store, now: Instant) {
    && Schedule(sys, events) && After(sys, events).store == s && After(sys, events).clock == now
    && After(sys, events).handlers == sys.handlers[h.record.id := h]
  }

  // Extends a schedule by a wait and then a step of the handler.
  lemma StepAt(sys: System, events: seq<Lifecycle.Event>, h: Handler, s: Store, was: Instant, c: Choice, victim: Id,
               now: Instant)
    returns (more: seq<Lifecycle.Event>, h': Handler, s': Store)
    requires Reaches(sys, events, h, s, was) && was <= now
    requires CanAct(h, c) && (h.pc.Arrived? ==> PutAllowed(s, h.record, victim))
    ensures h' == h.(pc := NextPc(h, c)) && s' == Perform(s, h, ActionOf(h, c), victim, now)
    ensures Reaches(sys, more, h', s', now)
  {
    Extend(sys, events, Tick(now - was));
    Extend(sys, events + [Tick(now - was)], Act(h.record.id, c, victim));
    more := events + [Tick(now - was)] + [Act(h.record.id, c, victim)];
    h', s' := h.(pc := NextPc(h, c)), Perform(s, h, ActionOf(h, c), victim, now);
  }

  lemma ArrivalReaches(sys: System, kind: Kind, id: Id, owner: KeyId, ttlSeconds: nat)
    returns (events: seq<Lifecycle.Event>)
    requires id !in sys.handlers
    ensures Reaches(sys, events, Handler(kind, NewReceived(id, owner, ttlSeconds, sys.clock), Arrived), sys.store,
                    sys.clock)
  {
    Extend(sys, [], Arrive(id, kind, owner, ttlSeconds));
    events := [] + [Arrive(id, kind, owner, ttlSeconds)];
  }

  // What `Trail` does to the store is a schedule of the handler machine that ends in that ending.
  lemma TrailIsASchedule(
      sys: System, kind: Kind, id: Id, owner: KeyId, ttlSeconds: nat, ending: Ending, to: Recipients, clock: Clock,
      victim: Id)
    returns (events: seq<Lifecycle.Event>)
    requires id !in sys.handlers && sys.clock == clock.arrival && InOrder(clock) && Possible(kind, ending)
    requires PutAllowed(sys.store, NewReceived(id, owner, ttlSeconds, clock.arrival), victim)
    ensures var record := NewReceived(id, owner, ttlSeconds, clock.arrival);
            Reaches(sys, events, Handler(kind, record, Finished(ending)),
                    Trail(sys.store, kind, record, ending, to, clock, victim), clock.settled)
  {
    hide Reaches, PutAllowed, Put, SetMetadata, UpdateStatus, LastUpdate, NewReceived, Schedule, After;
    var h := Handler(kind, NewReceived(id, owner, ttlSeconds, clock.arrival), Arrived);
    var s, t := sys.store, clock.arrival;
    events := ArrivalReaches(sys, kind, id, owner, ttlSeconds);
    events, h, s := StepAt(sys, events, h, s, t, Proceed, victim, t);
    if ending.TurnedAway? && !ending.stage.Building? {
      events, h, s := StepAt(sys, events, h, s, t, TurnAway(ending.error), victim, t);
    } else {
      events, h, s := StepAt(sys, events, h, s, t, Proceed, victim, t);
      events, h, s := StepAt(sys, events, h, s, t, Describe(to.domains, to.count), victim, clock.described);
      t := clock.described;
      if ending.TurnedAway? {
        events, h, s := StepAt(sys, events, h, s, t, TurnAway(ending.error), victim, t);
      } else {
        events, h, s := StepAt(sys, events, h, s, t, Proceed, victim, t);
        events, h, s := StepAt(sys, events, h, s, t, Proceed, victim, clock.started);
        t := clock.started;
        events, h, s := StepAt(sys, events, h, s, t, SmtpAnswers(ending), victim, t);
      }
    }
    events, h, s := StepAt(sys, events, h, s, t, Proceed, victim, clock.settled);
  }

  predicate PassedValidation(ending: Ending) {
    ending.TurnedAway? ==> ending.stage.Building?
  }

  // The record a handler leaves behind if nothing expires on the way.
  function Residue(kind: Kind, record: Record, ending: Ending, to: Recipients, clock: Clock): Record {
    var described := if PassedValidation(ending) then record.(domains := to.domains, count := to.count) else record;
    var started := if ending.TurnedAway? then described else Applied(described, StartUpdate(kind), clock.started);
    Applied(started, LastUpdate(kind, ending), clock.settled)
  }

  lemma TrailLeavesResidue(s: Store, kind: Kind, record: Record, ending: Ending, to: Recipients, clock: Clock,
                           victim: Id)
    requires record.id !in s.records && record.status.Received? && InOrder(clock) && clock.settled <= record.expires
    ensures Trail(s, kind, record, ending, to, clock, victim).records
      == Put(s, record, victim).records[record.id := Residue(kind, record, ending, to, clock)]
  {
    hide LastUpdate;
    var p := Put(s, record, victim);
    var d := SetMetadata(p, record.id, record.owner, to.domains, to.count, clock.described);
    assert p.records[record.id] == record;
    if PassedValidation(ending) {
      assert d.records == p.records[record.id := record.(domains := to.domains, count := to.count,
                                                         updated := clock.described)];
      if !ending.TurnedAway? {
        var e := UpdateStatus(d, record.id, record.owner, StartUpdate(kind), clock.started);
        assert e.records == p.records[record.id := Applied(d.records[record.id], StartUpdate(kind), clock.started)];
      }
    }
  }

  // What a lookup by the owner finds once the handler is done, if the record has not expired: the
  // ending, with the recipients of the message if it got past validation. Nobody else's record changed, though
  // the put may have cost the oldest one its place.
  lemma TrailIsVisible(s: Store, kind: Kind, record: Record, ending: Ending, to: Recipients, clock: Clock, victim: Id,
                       now: Instant)
    requires record.id !in s.records && record.status.Received? && record.domains == [] && record.count == 0
    requires InOrder(clock) && clock.settled <= now <= record.expires && PutAllowed(s, record, victim)
    ensures var end := Trail(s, kind, record, ending, to, clock, victim);
            var seen := Found(end, record.id, record.owner, now);
            && seen.Some?
            && seen.value.status == LastUpdate(kind, ending).status && seen.value.code == LastUpdate(kind, ending).code
            && seen.value.domains == (if PassedValidation(ending) then to.domains else [])
            && seen.value.count == (if PassedValidation(ending) then to.count else 0)
    ensures var end := Trail(s, kind, record, ending, to, clock, victim);
            forall other :: other != record.id ==>
              (other in end.records <==> other in s.records && !(MustEvict(s, record) && other == victim))
              && (other in end.records ==> end.records[other] == s.records[other])
  {
    hide Trail, LastUpdate;
    TrailLeavesResidue(s, kind, record, ending, to, clock, victim);
  }

  // --------------------------------------------------------------------------
  // Phase one of a bulk request
  // --------------------------------------------------------------------------

  // One message of a bulk request, with the id drawn for it and what the outside decides while it is prepared.
  datatype Attempt = Attempt(id: Id, request: MailRequest, at: CheckTimes, clock: Clock, builds: bool)

  datatype PreparedMessage = PreparedMessage(index: nat, id: Id)

  // The answer of phase one.
  function PreparedOr(index: nat, id: Id, problem: Option<Ending>): Result<PreparedMessage, BulkSend.MessageResult> {
    if problem.Some? then Err(BulkSend.MessageResult(index, id, ReplyOf(Bulk, problem.value)))
    else Ok(PreparedMessage(index, id))
  }

  ghost function LimiterAfter(l: Limiter, who: Caller, attempts: seq<Attempt>, n: nat): (r: Limiter)
    requires RateLimiters.Valid(l) && n <= |attempts|
    ensures RateLimiters.Valid(r)
  {
    if n == 0 then l else AskTiers(LimiterAfter(l, who, attempts, n - 1), who, attempts[n - 1].at).limiter
  }

  ghost function PhaseOneProblem(cfg: Settings, l: Limiter, who: Caller, a: Attempt): Option<Ending>
    requires RateLimiters.Valid(l)
  {
    var limited := LimitProblem(AskTiers(l, who, a.at).refusal);
    if limited.Some? then limited else ContentProblem(ContextFor(cfg, who), a.request, a.builds)
  }

  // What stops message i in phase one, if anything.
  ghost function ProblemAt(cfg: Settings, l: Limiter, who: Caller, attempts: seq<Attempt>, i: nat): Option<Ending>
    requires RateLimiters.Valid(l) && i < |attempts|
  {
    PhaseOneProblem(cfg, LimiterAfter(l, who, attempts, i), who, attempts[i])
  }

  // The store after phase one of a message it already holds a record of.
  function PhaseOneStore(p: Store, record: Record, problem: Option<Ending>, to: Recipients, clock: Clock): Store {
    if problem.Some? then Continued(p, Bulk, record, problem.value, to, clock) else Described(p, record, to, clock)
  }

  // What the store's choices and the recipients were for each message.
  datatype Mark = Mark(victim: Id, to: Recipients)

  function StoreAfterOne(cfg: Settings, s: Store, who: Caller, a: Attempt, problem: Option<Ending>, m: Mark): Store {
    var record := NewReceived(a.id, who.keyId, cfg.ttlSeconds, a.clock.arrival);
    PhaseOneStore(MemoryStores.Put(s, record, m.victim), record, problem, m.to, a.clock)
  }

  ghost function StoreAfter(cfg: Settings, s: Store, l: Limiter, who: Caller, attempts: seq<Attempt>,
                            marks: seq<Mark>, n: nat): Store
    requires RateLimiters.Valid(l) && n <= |attempts| && n <= |marks|
  {
    if n == 0 then s
    else
      StoreAfterOne(cfg, StoreAfter(cfg, s, l, who, attempts, marks, n - 1), who, attempts[n - 1],
                    ProblemAt(cfg, l, who, attempts, n - 1), marks[n - 1])
  }

  // A mark the code could have made.
  ghost predicate MarkFits(cfg: Settings, s: Store, who: Caller, a: Attempt, problem: Option<Ending>, m: Mark) {
    && PutAllowed(s, NewReceived(a.id, who.keyId, cfg.ttlSeconds, a.clock.arrival), m.victim)
    && ((problem.Some? ==> PassedValidation(problem.value)) ==> RecipientsFit(a.request, m.to))
  }

  ghost predicate MarksFit(cfg: Settings, s: Store, l: Limiter, who: Caller, attempts: seq<Attempt>, marks: seq<Mark>)
    requires RateLimiters.Valid(l) && |marks| <= |attempts|
  {
    forall i: nat :: i < |marks| ==>
      MarkFits(cfg, StoreAfter(cfg, s, l, who, attempts, marks, i), who, attempts[i],
               ProblemAt(cfg, l, who, attempts, i), marks[i])
  }

  // One more mark does not change what came before.
  lemma {:induction false} EarlierStores(
      cfg: Settings, s: Store, l: Limiter, who: Caller, attempts: seq<Attempt>, marks: seq<Mark>, m: Mark, n: nat)
    requires RateLimiters.Valid(l) && n <= |marks| < |attempts|
    ensures StoreAfter(cfg, s, l, who, attempts, marks + [m], n) == StoreAfter(cfg, s, l, who, attempts, marks, n)
  {
    hide RateLimiters.Valid, ProblemAt, StoreAfterOne;
    if n > 0 {
      EarlierStores(cfg, s, l, who, attempts, marks, m, n - 1);
    }
  }

  lemma OneMoreMark(cfg: Settings, s: Store, l: Limiter, who: Caller, attempts: seq<Attempt>, marks: seq<Mark>, m: Mark)
    requires RateLimiters.Valid(l) && |marks| < |attempts| && MarksFit(cfg, s, l, who, attempts, marks)
    requires var n := |marks|;
             MarkFits(cfg, StoreAfter(cfg, s, l, who, attempts, marks, n), who, attempts[n],
                      ProblemAt(cfg, l, who, attempts, n), m)
    ensures MarksFit(cfg, s, l, who, attempts, marks + [m])
    ensures var n := |marks|;
            StoreAfter(cfg, s, l, who, attempts, marks + [m], n + 1)
            == StoreAfterOne(cfg, StoreAfter(cfg, s, l, who, attempts, marks, n), who, attempts[n],
                             ProblemAt(cfg, l, who, attempts, n), m)
  {
    hide RateLimiters.Valid, ProblemAt, StoreAfterOne, MarkFits;
    forall i: nat | i <= |marks|
      ensures StoreAfter(cfg, s, l, who, attempts, marks + [m], i) == StoreAfter(cfg, s, l, who, attempts, marks, i)
    {
      EarlierStores(cfg, s, l, who, attempts, marks, m, i);
    }
  }

  ghost function RejectedAmong(cfg: Settings, l: Limiter, who: Caller, attempts: seq<Attempt>,
                               n: nat): seq<BulkSend.MessageResult>
    requires RateLimiters.Valid(l) && n <= |attempts|
  {
    if n == 0 then []
    else
      var problem := ProblemAt(cfg, l, who, attempts, n - 1);
      RejectedAmong(cfg, l, who, attempts, n - 1)
      + if problem.Some? then [BulkSend.MessageResult(n - 1, attempts[n - 1].id, ReplyOf(Bulk, problem.value))] else []
  }

  ghost function PreparedAmong(cfg: Settings, l: Limiter, who: Caller, attempts: seq<Attempt>,
                               n: nat): seq<PreparedMessage>
    requires RateLimiters.Valid(l) && n <= |attempts|
  {
    if n == 0 then []
    else
      PreparedAmong(cfg, l, who, attempts, n - 1)
      + if ProblemAt(cfg, l, who, attempts, n - 1).None? then [PreparedMessage(n - 1, attempts[n - 1].id)] else []
  }

  // --------------------------------------------------------------------------
  // Replies and records, spelled out
  // --------------------------------------------------------------------------

  lemma FeaturesFirst(ctx: Context, req: MailRequest)
    ensures Acceptable(ctx, req) ==> FeaturesOk(ctx, req)
  {
  }

  // A single send: the first step that fails decides what the client is told and what is stored.
  lemma SingleSendSpelledOut(cfg: Settings, l: Limiter, who: Caller, req: Incoming, at: CheckTimes, builds: bool,
                             smtp: SmtpAnswer)
    requires RateLimiters.Valid(l)
    ensures var e := SingleEnding(cfg, l, who, req, at, builds, smtp);
            var reply, status, code := ReplyOf(Single, e), LastUpdate(Single, e).status, LastUpdate(Single, e).code;
            var ctx := Context(cfg.mail, FindKey(cfg.keys, who.keyId), cfg.isAddress);
            if !("application/json" <= req.contentType)
            then reply == Refused(UnsupportedMediaType) && status == Rejected && code == Some(UnsupportedMediaType)
            else if req.bodyBytes > cfg.maxRequestBodyBytes
            then reply == Refused(PayloadTooLarge) && status == Rejected && code == Some(PayloadTooLarge)
            else if req.payload.None?
            then reply == Refused(BadRequest) && status == Rejected && code == Some(BadRequest)
            else if AskTiers(l, who, at).refusal.Some?
            then reply == Refused(RateLimitExceeded) && status == Rejected && code == Some(RateLimitExceeded)
            else if !FeaturesOk(ctx, req.payload.value)
            then reply == Refused(FeatureDisabled) && status == Rejected && code == Some(ValidationFailed)
            else if !Acceptable(ctx, req.payload.value)
            then reply == Refused(ValidationFailed) && status == Rejected && code == Some(ValidationFailed)
            else if !builds
            then reply == Refused(InternalError) && status == Rejected && code == Some(InternalError)
            else match smtp
                 case Took => reply == Accepted && status == SmtpAccepted && code == None
                 case Refused5xx =>
                   reply == Refused(SmtpRejectedMessage) && status == SmtpFailed && code == Some(SmtpRejectedMessage)
                 case NotReached =>
                   reply == Refused(SmtpUnavailable) && status == SmtpFailed && code == Some(SmtpUnavailable)
    ensures LimiterAfterSingle(cfg, l, who, req, at)
            == if "application/json" <= req.contentType && req.bodyBytes <= cfg.maxRequestBodyBytes && req.payload.Some?
               then AskTiers(l, who, at).limiter else l
  {
    hide AskTiers, RateLimiters.Valid, Acceptable, FeaturesOk, FindKey, LimitMessage;
    if req.payload.Some? {
      FeaturesFirst(ContextFor(cfg, who), req.payload.value);
    }
  }

  // What phase one of a bulk request tells and stores about a message it rejects.
  lemma PhaseOneSpelledOut(cfg: Settings, l: Limiter, who: Caller, a: Attempt)
    requires RateLimiters.Valid(l)
    ensures var problem, refusal := PhaseOneProblem(cfg, l, who, a), AskTiers(l, who, a.at).refusal;
            var ctx := Context(cfg.mail, FindKey(cfg.keys, who.keyId), cfg.isAddress);
            if refusal.Some? then
              && problem.Some? && ReplyOf(Bulk, problem.value) == Refused(RateLimitExceeded)
              && LastUpdate(Bulk, problem.value) == Update(Rejected, Some(RateLimitExceeded), Some(
                   match refusal.value.tier
                   case GlobalTier => "Global rate limit exceeded."
                   case IpTier => "IP rate limit exceeded."
                   case KeyTier => "Per-key rate limit exceeded."))
            else if !FeaturesOk(ctx, a.request) then
              && problem.Some? && ReplyOf(Bulk, problem.value) == Refused(InternalError)
              && LastUpdate(Bulk, problem.value)
                 == Update(Rejected, Some(InternalError), Some("Request rejected during validation."))
            else if !Acceptable(ctx, a.request) then
              && problem.Some? && ReplyOf(Bulk, problem.value) == Refused(ValidationFailed)
              && LastUpdate(Bulk, problem.value)
                 == Update(Rejected, Some(ValidationFailed), Some("Request rejected during validation."))
            else if !a.builds then
              && problem.Some? && ReplyOf(Bulk, problem.value) == Refused(InternalError)
              && LastUpdate(Bulk, problem.value)
                 == Update(Rejected, Some(InternalError), Some("Failed to build mail message."))
            else problem.None?
  {
    hide AskTiers, RateLimiters.Valid, Acceptable, FeaturesOk, FindKey;
    FeaturesFirst(ContextFor(cfg, who), a.request);
  }

  // What the owner finds of a prepared bulk message, before it is submitted.
  lemma PreparedIsVisible(s: Store, id: Id, owner: KeyId, ttlSeconds: nat, to: Recipients, clock: Clock, victim: Id,
                          now: Instant)
    requires id !in s.records && clock.arrival <= clock.described <= now <= clock.arrival + ttlSeconds * 1_000_000_000
    requires PutAllowed(s, NewReceived(id, owner, ttlSeconds, clock.arrival), victim)
    ensures var record := NewReceived(id, owner, ttlSeconds, clock.arrival);
            Found(PhaseOneStore(MemoryStores.Put(s, record, victim), record, None, to, clock), id, owner, now)
            == Some(Record(id, owner, Received, None, Some("Submission received."), to.domains, to.count,
                           clock.arrival, clock.described, clock.arrival + ttlSeconds * 1_000_000_000))
  {
  }

  // What the owner finds once it is submitted.
  lemma SubmittedIsVisible(s: Store, record: Record, clock: Clock, smtp: SmtpAnswer, now: Instant)
    requires record.id in s.records && s.records[record.id] == record && record.status.Received?
    requires clock.started <= clock.settled <= now <= record.expires
    ensures Found(Submitted(s, Bulk, record, AnswerEnding(smtp), clock), record.id, record.owner, now)
            == Some(Record(record.id, record.owner, if smtp.Took? then SmtpAccepted else SmtpFailed,
                           if smtp.Took? then None else Some(SmtpUnavailable),
                           Some(if smtp.Took? then "Accepted by SMTP server." else "SMTP server unavailable."),
                           record.domains, record.count, record.created, clock.settled, record.expires))
  {
  }

  // --------------------------------------------------------------------------
  // The handlers
  // --------------------------------------------------------------------------

  lemma PhaseOneStarts(cfg: Settings, l: Limiter, who: Caller, attempts: seq<Attempt>)
    requires RateLimiters.Valid(l)
    ensures LimiterAfter(l, who, attempts, 0) == l
    ensures PreparedAmong(cfg, l, who, attempts, 0) == [] && RejectedAmong(cfg, l, who, attempts, 0) == []
  {
  }

  lemma PhaseOneStep(cfg: Settings, l: Limiter, who: Caller, attempts: seq<Attempt>, i: nat)
    requires RateLimiters.Valid(l) && i < |attempts|
    ensures LimiterAfter(l, who, attempts, i + 1)
      == AskTiers(LimiterAfter(l, who, attempts, i), who, attempts[i].at).limiter
    ensures match PreparedOr(i, attempts[i].id,
                             PhaseOneProblem(cfg, LimiterAfter(l, who, attempts, i), who, attempts[i]))
            case Ok(m) =>
              && PreparedAmong(cfg, l, who, attempts, i + 1) == PreparedAmong(cfg, l, who, attempts, i) + [m]
              && RejectedAmong(cfg, l, who, attempts, i + 1) == RejectedAmong(cfg, l, who, attempts, i)
            case Err(e) =>
              && PreparedAmong(cfg, l, who, attempts, i + 1) == PreparedAmong(cfg, l, who, attempts, i)
              && RejectedAmong(cfg, l, who, attempts, i + 1) == RejectedAmong(cfg, l, who, attempts, i) + [e]
  {
  }

  // The limiter is kept as a value here: `RateLimiter.AskInOrder` is proved to be the function used.
  class Relay {
    const cfg: Settings
    const store: InMemoryStatusStore
    var limiter: Limiter

    constructor (cfg: Settings, store: InMemoryStatusStore, limiter: Limiter)
      ensures this.cfg == cfg && this.store == store && this.limiter == limiter
    {
      this.cfg, this.store, this.limiter := cfg, store, limiter;
    }

    method Admit(who: Caller, at: CheckTimes) returns (refusal: Option<RateLimited>)
      requires RateLimiters.Valid(limiter)
      modifies this`limiter
      ensures RateLimiters.Valid(limiter) && Outcome(refusal, limiter) == AskTiers(old(limiter), who, at)
    {
      hide AskTiers;
      var o := AskTiers(limiter, who, at);
      limiter := o.limiter;
      refusal := o.refusal;
    }

    method Put(record: Record) returns (ghost victim: Id)
      modifies store, store.metrics
      ensures PutAllowed(old(store.Model()), record, victim)
        && store.Model() == MemoryStores.Put(old(store.Model()), record, victim)
    {
      ghost var before := store.Model();
      store.PutReceived(record);
      victim :| PutAllowed(before, record, victim) && store.Model() == MemoryStores.Put(before, record, victim);
    }

    // `send_mail`.
    method SendMail(id: Id, who: Caller, req: Incoming, at: CheckTimes, clock: Clock, builds: bool, smtp: SmtpAnswer)
      returns (reply: Reply, ghost to: Recipients, ghost victim: Id)
      requires RateLimiters.Valid(limiter)
      modifies this`limiter, store, store.metrics
      ensures RateLimiters.Valid(limiter)
      ensures limiter == if "application/json" <= req.contentType && req.bodyBytes <= cfg.maxRequestBodyBytes
                            && req.payload.Some?
                         then AskTiers(old(limiter), who, at).limiter else old(limiter)
      ensures var ctx := Context(cfg.mail, FindKey(cfg.keys, who.keyId), cfg.isAddress);
              reply == if !("application/json" <= req.contentType) then Refused(UnsupportedMediaType)
                       else if req.bodyBytes > cfg.maxRequestBodyBytes then Refused(PayloadTooLarge)
                       else if req.payload.None? then Refused(BadRequest)
                       else if AskTiers(old(limiter), who, at).refusal.Some? then Refused(RateLimitExceeded)
                       else if !FeaturesOk(ctx, req.payload.value) then Refused(FeatureDisabled)
                       else if !Acceptable(ctx, req.payload.value) then Refused(ValidationFailed)
                       else if !builds then Refused(InternalError)
                       else match smtp
                            case Took => Accepted
                            case Refused5xx => Refused(SmtpRejectedMessage)
                            case NotReached => Refused(SmtpUnavailable)
      ensures PutAllowed(old(store.Model()), NewReceived(id, who.keyId, cfg.ttlSeconds, clock.arrival), victim)
      ensures store.Model() == Trail(old(store.Model()), Single,
                                     NewReceived(id, who.keyId, cfg.ttlSeconds, clock.arrival),
                                     SingleEnding(cfg, old(limiter), who, req, at, builds, smtp), to, clock, victim)
      ensures PassedValidation(SingleEnding(cfg, old(limiter), who, req, at, builds, smtp)) ==>
        req.payload.Some? && RecipientsFit(req.payload.value, to)
      ensures reply.Accepted? ==>
        && to.count == |req.payload.value.to| + |ListOf(req.payload.value.cc)|
        && forall x :: x in to.domains <==> NamesDomain(req.payload.value.to + ListOf(req.payload.value.cc), x)
    {
      to := Recipients([], 0);
      ghost var record := NewReceived(id, who.keyId, cfg.ttlSeconds, clock.arrival);
      assert record.id == id && record.owner == who.keyId;
      SingleSendSpelledOut(cfg, limiter, who, req, at, builds, smtp);
      hide InMemoryStatusStore.Model, RateLimiters.Valid, AskTiers, Acceptable, FeaturesOk, FindKey, LastUpdate;
      hide MemoryStores.Put, UpdateStatus, SetMetadata, PutAllowed, NewReceived, ContentEnding, RecipientsFit;
      hide Continued, ReplyOf;
      victim := Put(NewReceived(id, who.keyId, cfg.ttlSeconds, clock.arrival));

      if !IsJson(req.contentType) {
        reply := TurnAwayAtOnce(id, who, UnsupportedMediaTypeError, clock, record, to);
        return;
      }
      if req.bodyBytes > cfg.maxRequestBodyBytes {
        reply := TurnAwayAtOnce(id, who, PayloadTooLargeError, clock, record, to);
        return;
      }
      if req.payload.None? {
        reply := TurnAwayAtOnce(id, who, BadRequestError, clock, record, to);
        return;
      }

      var refusal := Admit(who, at);
      if refusal.Some? {
        reply := TurnAwayAtOnce(id, who, RateLimitedError(refusal.value.tier), clock, record, to);
        return;
      }
      reply, to := SendContent(id, who, req.payload.value, clock, builds, smtp);
    }

    // `send_mail` from validation on.
    method SendContent(id: Id, who: Caller, req: MailRequest, clock: Clock, builds: bool, smtp: SmtpAnswer)
      returns (reply: Reply, ghost to: Recipients)
      modifies store, store.metrics
      ensures reply == ReplyOf(Single, ContentEnding(ContextFor(cfg, who), req, builds, smtp))
      ensures forall record: Record :: record.id == id && record.owner == who.keyId ==>
        store.Model() == Continued(old(store.Model()), Single, record,
                                   ContentEnding(ContextFor(cfg, who), req, builds, smtp), to, clock)
      ensures PassedValidation(ContentEnding(ContextFor(cfg, who), req, builds, smtp)) ==> RecipientsFit(req, to)
    {
      hide InMemoryStatusStore.Model, UpdateStatus, SetMetadata, Acceptable, FeaturesOk, StrictlySorted, NamesDomain;
      hide DecodedAll, Submitted, ContextFor;
      to := Recipients([], 0);
      var validated := ValidateMailRequest(ContextFor(cfg, who), req);
      if validated.Err? {
        Reject(id, who, ValidationError, clock);
        return Refused(ErrorCodeOf(validated.error)), to;
      }

      var domains := RecipientDomainsFrom(validated.value.to, validated.value.cc);
      var count := |validated.value.to| + |validated.value.cc|;
      to := Recipients(domains, count);
      store.SetRecipientMetadata(id, who.keyId, domains, count, clock.described);

      if !builds {
        store.UpdateRecord(id, who.keyId,
                          Update(Rejected, Some(InternalError), Some("Failed to build mail message.")), clock.settled);
        return Refused(InternalError), to;
      }

      reply := Submit(id, who.keyId, clock, smtp);
    }

    // The SMTP part of `send_mail`.
    method Submit(id: Id, key: KeyId, clock: Clock, smtp: SmtpAnswer) returns (reply: Reply)
      modifies store, store.metrics
      ensures reply == ReplyOf(Single, AnswerEnding(smtp))
      ensures forall record: Record :: record.id == id && record.owner == key ==>
        store.Model() == Submitted(old(store.Model()), Single, record, AnswerEnding(smtp), clock)
    {
      hide InMemoryStatusStore.Model, UpdateStatus;
      store.UpdateRecord(id, key, Update(SubmissionStarted, None, None), clock.started);
      if smtp.Took? {
        store.UpdateRecord(
          id, key, Update(SmtpAccepted, None, Some("The message was accepted by the configured SMTP server.")),
          clock.settled);
        reply := Accepted;
      } else {
        var smtpCode := if smtp.Refused5xx? then SmtpRejectedMessage else SmtpUnavailable;
        store.UpdateRecord(id, key, Update(SmtpFailed, Some(smtpCode), None), clock.settled);
        reply := Refused(smtpCode);
      }
    }

    // The `reject` closure of `send_mail`.
    method Reject(id: Id, who: Caller, error: AppError, clock: Clock)
      modifies store, store.metrics
      ensures store.Model() == UpdateStatus(old(store.Model()), id, who.keyId,
                                            Update(Rejected, StoreCode(error), None), clock.settled)
    {
      store.UpdateRecord(id, who.keyId, Update(Rejected, StoreCode(error), None), clock.settled);
    }

    // Rejecting before validation, and the reply that goes with it.
    method TurnAwayAtOnce(id: Id, who: Caller, error: AppError, clock: Clock, ghost record: Record,
                          ghost to: Recipients)
      returns (reply: Reply)
      requires record.id == id && record.owner == who.keyId
      modifies store, store.metrics
      ensures reply == ReplyOf(Single, TurnedAway(Admission, error))
      ensures store.Model() == Continued(old(store.Model()), Single, record, TurnedAway(Admission, error), to, clock)
    {
      hide InMemoryStatusStore.Model, UpdateStatus;
      Reject(id, who, error, clock);
      reply := Refused(ErrorCodeOf(error));
    }

    method StoreRejected(id: Id, who: Caller, code: ErrorCode, message: string, clock: Clock) returns (ghost victim: Id)
      modifies store, store.metrics
      ensures var record := NewReceived(id, who.keyId, cfg.ttlSeconds, clock.arrival);
              && PutAllowed(old(store.Model()), record, victim)
              && store.Model() == UpdateStatus(MemoryStores.Put(old(store.Model()), record, victim), id, who.keyId,
                                               Update(Rejected, Some(code), Some(message)), clock.settled)
    {
      victim := Put(NewReceived(id, who.keyId, cfg.ttlSeconds, clock.arrival));
      store.UpdateRecord(id, who.keyId, Update(Rejected, Some(code), Some(message)), clock.settled);
    }

    // `phase1_prepare`.
    method PrepareOne(index: nat, who: Caller, a: Attempt)
      returns (r: Result<PreparedMessage, BulkSend.MessageResult>, ghost to: Recipients, ghost victim: Id)
      requires RateLimiters.Valid(limiter)
      modifies this`limiter, store, store.metrics
      ensures RateLimiters.Valid(limiter) && limiter == AskTiers(old(limiter), who, a.at).limiter
      ensures r == PreparedOr(index, a.id, PhaseOneProblem(cfg, old(limiter), who, a))
      ensures var ctx := Context(cfg.mail, FindKey(cfg.keys, who.keyId), cfg.isAddress);
              r == if AskTiers(old(limiter), who, a.at).refusal.Some?
                   then Err(BulkSend.MessageResult(index, a.id, Refused(RateLimitExceeded)))
                   else if !FeaturesOk(ctx, a.request)
                   then Err(BulkSend.MessageResult(index, a.id, Refused(InternalError)))
                   else if !Acceptable(ctx, a.request)
                   then Err(BulkSend.MessageResult(index, a.id, Refused(ValidationFailed)))
                   else if !a.builds then Err(BulkSend.MessageResult(index, a.id, Refused(InternalError)))
                   else Ok(PreparedMessage(index, a.id))
      ensures var problem := PhaseOneProblem(cfg, old(limiter), who, a);
              && MarkFits(cfg, old(store.Model()), who, a, problem, Mark(victim, to))
              && store.Model() == StoreAfterOne(cfg, old(store.Model()), who, a, problem, Mark(victim, to))
    {
      ghost var record := NewReceived(a.id, who.keyId, cfg.ttlSeconds, a.clock.arrival);
      assert record.id == a.id && record.owner == who.keyId;
      PhaseOneSpelledOut(cfg, limiter, who, a);
      hide InMemoryStatusStore.Model, RateLimiters.Valid, AskTiers, Acceptable, FeaturesOk, FindKey;
      hide MemoryStores.Put, UpdateStatus, SetMetadata, PutAllowed, NewReceived, ContentProblem, RecipientsFit;
      to := Recipients([], 0);
      var refusal := Admit(who, a.at);
      if refusal.Some? {
        victim := StoreRejected(a.id, who, RateLimitExceeded, LimitMessage(refusal.value.tier), a.clock);
        return Err(BulkSend.MessageResult(index, a.id, Refused(RateLimitExceeded))), to, victim;
      }
      victim := Put(NewReceived(a.id, who.keyId, cfg.ttlSeconds, a.clock.arrival));
      r, to := PrepareContent(index, who, a);
    }

    // `phase1_prepare` from validation on.
    method PrepareContent(index: nat, who: Caller, a: Attempt)
      returns (r: Result<PreparedMessage, BulkSend.MessageResult>, ghost to: Recipients)
      modifies store, store.metrics
      ensures r == PreparedOr(index, a.id, ContentProblem(ContextFor(cfg, who), a.request, a.builds))
      ensures forall record: Record :: record.id == a.id && record.owner == who.keyId ==>
        store.Model() == PhaseOneStore(old(store.Model()), record,
                                       ContentProblem(ContextFor(cfg, who), a.request, a.builds), to, a.clock)
      ensures var problem := ContentProblem(ContextFor(cfg, who), a.request, a.builds);
              (problem.Some? ==> PassedValidation(problem.value)) ==> RecipientsFit(a.request, to)
    {
      hide InMemoryStatusStore.Model, UpdateStatus, SetMetadata, Acceptable, FeaturesOk, StrictlySorted, NamesDomain;
      to := Recipients([], 0);
      var validated := ValidateMailRequest(ContextFor(cfg, who), a.request);
      if validated.Err? {
        var code := BulkCode(validated.error);
        store.UpdateRecord(a.id, who.keyId, Update(Rejected, Some(code), Some("Request rejected during validation.")),
                           a.clock.settled);
        return Err(BulkSend.MessageResult(index, a.id, Refused(code))), to;
      }

      var domains := RecipientDomainsFrom(validated.value.to, validated.value.cc);
      var count := |validated.value.to| + |validated.value.cc|;
      to := Recipients(domains, count);
      store.SetRecipientMetadata(a.id, who.keyId, domains, count, a.clock.described);

      if !a.builds {
        store.UpdateRecord(a.id, who.keyId,
                          Update(Rejected, Some(InternalError), Some("Failed to build mail message.")),
                          a.clock.settled);
        return Err(BulkSend.MessageResult(index, a.id, Refused(InternalError))), to;
      }
      r := Ok(PreparedMessage(index, a.id));
    }

    // `phase2_submit`.
    method SubmitOne(p: PreparedMessage, key: KeyId, clock: Clock, smtp: SmtpAnswer) returns (r: BulkSend.MessageResult)
      modifies store, store.metrics
      ensures r == BulkSend.MessageResult(p.index, p.id, ReplyOf(Bulk, AnswerEnding(smtp)))
      ensures r == BulkSend.MessageResult(p.index, p.id, if smtp.Took? then Accepted else Refused(SmtpUnavailable))
      ensures forall record: Record :: record.id == p.id && record.owner == key ==>
        store.Model() == Submitted(old(store.Model()), Bulk, record, AnswerEnding(smtp), clock)
    {
      store.UpdateRecord(p.id, key, Update(SubmissionStarted, None, Some("Submitting to SMTP.")), clock.started);
      if smtp.Took? {
        store.UpdateRecord(p.id, key, Update(SmtpAccepted, None, Some("Accepted by SMTP server.")), clock.settled);
        r := BulkSend.MessageResult(p.index, p.id, Accepted);
      } else {
        store.UpdateRecord(p.id, key, Update(SmtpFailed, Some(SmtpUnavailable), Some("SMTP server unavailable.")),
                           clock.settled);
        r := BulkSend.MessageResult(p.index, p.id, Refused(SmtpUnavailable));
      }
    }

    // The payload guards and phase one of `send_bulk`.
    method PrepareAll(who: Caller, attempts: seq<Attempt>)
      returns (r: Result<(seq<PreparedMessage>, seq<BulkSend.MessageResult>), AppError>, ghost marks: seq<Mark>)
      requires RateLimiters.Valid(limiter)
      modifies this`limiter, store, store.metrics
      ensures RateLimiters.Valid(limiter)
      ensures r == if attempts == [] then Err(BadRequestError)
                   else if |attempts| > cfg.maxBulkMessages then Err(PayloadTooLargeError)
                   else Ok((PreparedAmong(cfg, old(limiter), who, attempts, |attempts|),
                            RejectedAmong(cfg, old(limiter), who, attempts, |attempts|)))
      ensures limiter == if r.Err? then old(limiter) else LimiterAfter(old(limiter), who, attempts, |attempts|)
      ensures r.Err? ==> store.Model() == old(store.Model())
      ensures r.Ok? ==>
        && |marks| == |attempts| && MarksFit(cfg, old(store.Model()), old(limiter), who, attempts, marks)
        && store.Model() == StoreAfter(cfg, old(store.Model()), old(limiter), who, attempts, marks, |attempts|)
    {
      marks := [];
      if attempts == [] {
        return Err(BadRequestError), marks;
      }
      if |attempts| > cfg.maxBulkMessages {
        return Err(PayloadTooLargeError), marks;
      }
      var rejected: seq<BulkSend.MessageResult>, prepared: seq<PreparedMessage> := [], [];
      ghost var l, s := limiter, store.Model();
      PhaseOneStarts(cfg, l, who, attempts);
      assert StoreAfter(cfg, s, l, who, attempts, marks, 0) == s && MarksFit(cfg, s, l, who, attempts, marks);
      hide InMemoryStatusStore.Model, RateLimiters.Valid, AskTiers, StoreAfter, StoreAfterOne, MarkFits, MarksFit;
      hide LimiterAfter, PreparedAmong, RejectedAmong, PhaseOneProblem, PassedValidation;
      for i := 0 to |attempts|
        invariant RateLimiters.Valid(limiter) && limiter == LimiterAfter(l, who, attempts, i)
        invariant prepared == PreparedAmong(cfg, l, who, attempts, i)
        invariant rejected == RejectedAmong(cfg, l, who, attempts, i)
        invariant |marks| == i && MarksFit(cfg, s, l, who, attempts, marks)
        invariant store.Model() == StoreAfter(cfg, s, l, who, attempts, marks, i)
      {
        PhaseOneStep(cfg, l, who, attempts, i);
        var p, to, victim := PrepareOne(i, who, attempts[i]);
        OneMoreMark(cfg, s, l, who, attempts, marks, Mark(victim, to));
        marks := marks + [Mark(victim, to)];
        match p {
          case Ok(m) => prepared := prepared + [m];
          case Err(e) => rejected := rejected + [e];
        }
      }
      r := Ok((prepared, rejected));
    }
  }

  // Every message of a bulk request is prepared or rejected, once, in order; a rejected one carries its reason.
  ghost predicate Divides(cfg: Settings, l: Limiter, who: Caller, attempts: seq<Attempt>, n: nat)
    requires RateLimiters.Valid(l) && n <= |attempts|
  {
    var prepared, rejected := PreparedAmong(cfg, l, who, attempts, n), RejectedAmong(cfg, l, who, attempts, n);
    && |prepared| + |rejected| == n
    && (forall i: nat :: i < n ==>
          match ProblemAt(cfg, l, who, attempts, i)
          case None => PreparedMessage(i, attempts[i].id) in prepared
          case Some(e) => BulkSend.MessageResult(i, attempts[i].id, ReplyOf(Bulk, e)) in rejected)
    && (forall j :: 0 <= j < |prepared| ==> prepared[j].index < n)
    && (forall j :: 0 <= j < |rejected| ==> rejected[j].index < n)
    && (forall j, k :: 0 <= j < k < |prepared| ==> prepared[j].index < prepared[k].index)
    && (forall j, k :: 0 <= j < k < |rejected| ==> rejected[j].index < rejected[k].index)
  }

  lemma DividesNothing(cfg: Settings, l: Limiter, who: Caller, attempts: seq<Attempt>)
    requires RateLimiters.Valid(l)
    ensures Divides(cfg, l, who, attempts, 0)
  {
  }

  lemma DividesOneMore(cfg: Settings, l: Limiter, who: Caller, attempts: seq<Attempt>, n: nat)
    requires RateLimiters.Valid(l) && n < |attempts| && Divides(cfg, l, who, attempts, n)
    ensures Divides(cfg, l, who, attempts, n + 1)
  {
    hide RateLimiters.Valid, LimiterAfter, PhaseOneProblem, PreparedAmong, RejectedAmong, ReplyOf;
    PhaseOneStep(cfg, l, who, attempts, n);
    var problem := ProblemAt(cfg, l, who, attempts, n);
    var p, r := PreparedAmong(cfg, l, who, attempts, n), RejectedAmong(cfg, l, who, attempts, n);
    if problem.None? {
      assert (p + [PreparedMessage(n, attempts[n].id)])[|p|] == PreparedMessage(n, attempts[n].id);
    } else {
      var result := BulkSend.MessageResult(n, attempts[n].id, ReplyOf(Bulk, problem.value));
      assert (r + [result])[|r|] == result;
    }
  }

  lemma {:induction false} PhaseOneDivides(cfg: Settings, l: Limiter, who: Caller, attempts: seq<Attempt>, n: nat)
    requires RateLimiters.Valid(l) && n <= |attempts|
    ensures Divides(cfg, l, who, attempts, n)
  {
    hide Divides, RateLimiters.Valid, LimiterAfter, ProblemAt, PreparedAmong, RejectedAmong, ReplyOf;
    if n == 0 {
      PhaseOneStarts(cfg, l, who, attempts);
      DividesNothing(cfg, l, who, attempts);
    } else {
      PhaseOneDivides(cfg, l, who, attempts, n - 1);
      DividesOneMore(cfg, l, who, attempts, n - 1);
    }
  }

  // --------------------------------------------------------------------------
  // Rate limits and content together
  // --------------------------------------------------------------------------

  predicate AllAt(attempts: seq<Attempt>, now: real) {
    forall i :: 0 <= i < |attempts| ==> attempts[i].at == AtOnce(now)
  }

  lemma {:induction false} SameInstant(l: Limiter, who: Caller, attempts: seq<Attempt>, n: nat, now: real)
    requires RateLimiters.Valid(l) && n <= |attempts| && AllAt(attempts, now)
    ensures LimiterAfter(l, who, attempts, n) == AfterBulk(l, who, n, now)
  {
    hide RateLimiters.Valid, AskTiers;
    if n > 0 {
      SameInstant(l, who, attempts, n - 1, now);
    }
  }

  // With no refill and no other traffic, the messages of a bulk request that the limiter lets through are
  // exactly the first min(floor g, floor i, floor k), whatever they contain: those end as their content
  // decides, and all later ones are rejected as rate limited. A message its content rejects has still cost its tokens.
  lemma BulkPhaseOneOutcome(cfg: Settings, l: Limiter, who: Caller, attempts: seq<Attempt>, now: real)
    requires ValidAt(l, now) && AllAt(attempts, now)
    ensures RateLimiters.Valid(l)
    ensures var p := PurseOf(l, who, now);
            var admitted := Min(p.global.Floor, Min(p.ip.Floor, p.key.Floor));
            forall i: nat :: i < |attempts| ==>
              var problem := ProblemAt(cfg, l, who, attempts, i);
              if i < admitted
              then problem == ContentProblem(ContextFor(cfg, who), attempts[i].request, attempts[i].builds)
              else problem.Some? && problem.value.TurnedAway? && problem.value.error.RateLimitedError?
  {
    ValidAtIsValid(l, now);
    BulkAdmissionIsAPrefix(l, who, |attempts|, now);
    hide ValidAt, PurseOf, RateLimiters.Valid, ContentProblem, AskTiers, AfterBulk, LimiterAfter;
    forall i: nat | i < |attempts|
      ensures AskTiers(LimiterAfter(l, who, attempts, i), who, attempts[i].at).refusal.None? <==> Passes(l, who, i, now)
    {
      SameInstant(l, who, attempts, i, now);
    }
  }
}
