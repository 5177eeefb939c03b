// The bodies of `send_bulk` as schedules of its protocol: phase one as `Relay.PrepareAll` runs it, phase two
// as `Relay.SubmitOne` runs it for one message, and what the response then says.
module BulkRelays {
  import opened Prelude
  import opened Statuses
  import opened MemoryStores
  import opened Handlers
  import opened Lifecycle
  import opened BulkSend
  import opened Relays
  import RateLimiters
  import Policies
  import Validations

  // --------------------------------------------------------------------------
  // Schedules one step at a time
  // --------------------------------------------------------------------------

  ghost predicate Arrives(b0: BulkState, steps: seq<BulkStep>, b: BulkState) {
    BulkSchedule(b0, steps) && BulkAfter(b0, steps) == b
  }

  lemma NextKeepsLength(b: BulkState, s: BulkStep)
    requires |b.slots| == |b.ids| && BulkEnabled(b, s)
    ensures |BulkNext(b, s).slots| == |BulkNext(b, s).ids|
  {
  }

  lemma {:induction false} ExtendBulk(b0: BulkState, steps: seq<BulkStep>, b: BulkState, s: BulkStep)
    requires Arrives(b0, steps, b) && |b.slots| == |b.ids| && BulkEnabled(b, s)
    ensures Arrives(b0, steps + [s], BulkNext(b, s))
    decreases |steps|
  {
    hide BulkEnabled, BulkNext;
    if steps == [] {
      NextKeepsLength(b, s);
      assert steps + [s] == [s] && [s][1..] == [];
      assert BulkSchedule(BulkNext(b, s), []) && BulkSchedule(b, [s]);
      assert BulkAfter(b, [s]) == BulkAfter(BulkNext(b, s), []);
    } else {
      ExtendBulk(BulkNext(b0, steps[0]), steps[1..], b, s);
      assert (steps + [s])[1..] == steps[1..] + [s];
    }
  }

  // The state in which one handler, the store and the clock have moved.
  function WithSystem(b: BulkState, h: Handler, s: Store, now: Instant): BulkState {
    b.(sys := b.sys.(store := s, handlers := b.sys.handlers[h.record.id := h], clock := now))
  }

  lemma WithSystemTwice(b: BulkState, h: Handler, h': Handler, s: Store, s': Store, now: Instant, later: Instant)
    requires h.record.id == h'.record.id
    ensures WithSystem(WithSystem(b, h, s, now), h', s', later) == WithSystem(b, h', s', later)
  {
    var id := h.record.id;
    assert b.sys.handlers[id := h][id := h'] == b.sys.handlers[id := h'];
  }

  lemma WaitUntil(b0: BulkState, steps: seq<BulkStep>, b: BulkState, now: Instant) returns (more: seq<BulkStep>)
    requires Arrives(b0, steps, b) && |b.slots| == |b.ids| && b.sys.clock <= now
    ensures Arrives(b0, more, b.(sys := b.sys.(clock := now)))
  {
    hide Arrives;
    ExtendBulk(b0, steps, b, Other(Tick(now - b.sys.clock)));
    more := steps + [Other(Tick(now - b.sys.clock))];
  }

  // A wait, then one step of the message at the cursor.
  lemma PrepareAt(b0: BulkState, steps: seq<BulkStep>, b: BulkState, h: Handler, s: Store, was: Instant,
                  c: Choice, victim: Id, now: Instant)
    returns (more: seq<BulkStep>, h': Handler, s': Store)
    requires Arrives(b0, steps, WithSystem(b, h, s, was)) && was <= now
    requires |b.slots| == |b.ids| && b.cursor < |b.ids| && b.ids[b.cursor] == h.record.id
    requires CanAct(h, c) && !h.pc.Prepared? && !c.SmtpAnswers?
    requires h.pc.Arrived? ==> PutAllowed(s, h.record, victim)
    ensures h' == h.(pc := NextPc(h, c)) && s' == Perform(s, h, ActionOf(h, c), victim, now)
    ensures Arrives(b0, more, WithSystem(b, h', s', now))
  {
    hide Arrives, Perform, NextPc, ActionOf, CanAct, PutAllowed;
    var ready := WithSystem(b, h, s, was);
    more := WaitUntil(b0, steps, ready, now);
    ready := ready.(sys := ready.sys.(clock := now));
    ExtendBulk(b0, more, ready, Prepare(c, victim));
    more := more + [Prepare(c, victim)];
    h', s' := h.(pc := NextPc(h, c)), Perform(s, h, ActionOf(h, c), victim, now);
    WithSystemTwice(b, h, h', s, s', now, now);
  }

  // --------------------------------------------------------------------------
  // Phase one of one message
  // --------------------------------------------------------------------------

  function RecordOf(b: BulkState, a: Attempt): Record {
    NewReceived(a.id, b.owner, b.ttlSeconds, a.clock.arrival)
  }

  function HandlerAfter(b: BulkState, a: Attempt, problem: Option<Ending>): Handler {
    Handler(Bulk, RecordOf(b, a), if problem.Some? then Finished(problem.value) else Prepared)
  }

  function Pushed(b: BulkState, id: Id, problem: Option<Ending>): BulkState
    requires b.cursor < |b.slots|
  {
    if problem.Some?
    then b.(cursor := b.cursor + 1, slots := b.slots[b.cursor := TurnedBack],
            rejected := b.rejected + [MessageResult(b.cursor, id, ReplyOf(Bulk, problem.value))])
    else b.(cursor := b.cursor + 1, slots := b.slots[b.cursor := Waiting], prepared := b.prepared + 1)
  }

  // What `Relay.PrepareOne` is proved to do, as a change of the protocol's state.
  function AfterMessage(b: BulkState, a: Attempt, problem: Option<Ending>, m: Mark): BulkState
    requires b.cursor < |b.slots|
  {
    var p := MemoryStores.Put(b.sys.store, RecordOf(b, a), m.victim);
    var s := PhaseOneStore(p, RecordOf(b, a), problem, m.to, a.clock);
    Pushed(WithSystem(b, HandlerAfter(b, a, problem), s, a.clock.settled), a.id, problem)
  }

  ghost predicate PhaseOneClock(clock: Clock) {
    clock.arrival <= clock.described <= clock.settled
  }

  // Endings of phase one.
  predicate PhaseOneEnding(problem: Option<Ending>) {
    problem.Some? ==> problem.value.TurnedAway? && Possible(Bulk, problem.value)
  }

  lemma MessageBegins(b0: BulkState, steps: seq<BulkStep>, b: BulkState, a: Attempt) returns (more: seq<BulkStep>)
    requires Arrives(b0, steps, b) && |b.slots| == |b.ids| && b.cursor < |b.ids| && b.ids[b.cursor] == a.id
    requires a.id !in b.sys.handlers && b.sys.clock <= a.clock.arrival
    ensures Arrives(b0, more, WithSystem(b, Handler(Bulk, RecordOf(b, a), Arrived), b.sys.store, a.clock.arrival))
  {
    hide Arrives;
    more := WaitUntil(b0, steps, b, a.clock.arrival);
    ExtendBulk(b0, more, b.(sys := b.sys.(clock := a.clock.arrival)), Begin);
    more := more + [Begin];
  }

  lemma RecordHasId(b: BulkState, a: Attempt)
    ensures RecordOf(b, a).id == a.id && RecordOf(b, a).owner == b.owner
  {
  }

  // The steps of the message up to the push.
  lemma MessageSteps(b0: BulkState, steps: seq<BulkStep>, b: BulkState, a: Attempt, problem: Option<Ending>, m: Mark)
    returns (more: seq<BulkStep>)
    requires Arrives(b0, steps, b) && |b.slots| == |b.ids| && b.cursor < |b.ids| && b.ids[b.cursor] == a.id
    requires a.id !in b.sys.handlers && b.sys.clock <= a.clock.arrival
    requires PhaseOneClock(a.clock) && PhaseOneEnding(problem) && PutAllowed(b.sys.store, RecordOf(b, a), m.victim)
    ensures var p := MemoryStores.Put(b.sys.store, RecordOf(b, a), m.victim);
            Arrives(b0, more, WithSystem(b, HandlerAfter(b, a, problem),
                                         PhaseOneStore(p, RecordOf(b, a), problem, m.to, a.clock), a.clock.settled))
  {
    hide Arrives, WithSystem, PutAllowed, MemoryStores.Put, SetMetadata, UpdateStatus, LastUpdate, NewReceived;
    RecordHasId(b, a);
    var s, t, h := b.sys.store, a.clock.arrival, Handler(Bulk, RecordOf(b, a), Arrived);
    more := MessageBegins(b0, steps, b, a);
    more, h, s := PrepareAt(b0, more, b, h, s, t, Proceed, m.victim, t);
    if problem.Some? && !problem.value.stage.Building? {
      more, h, s := PrepareAt(b0, more, b, h, s, t, TurnAway(problem.value.error), m.victim, t);
      more, h, s := PrepareAt(b0, more, b, h, s, t, Proceed, m.victim, a.clock.settled);
    } else {
      more, h, s := PrepareAt(b0, more, b, h, s, t, Proceed, m.victim, t);
      more, h, s := PrepareAt(b0, more, b, h, s, t, Describe(m.to.domains, m.to.count), m.victim, a.clock.described);
      t := a.clock.described;
      if problem.Some? {
        more, h, s := PrepareAt(b0, more, b, h, s, t, TurnAway(problem.value.error), m.victim, t);
        more, h, s := PrepareAt(b0, more, b, h, s, t, Proceed, m.victim, a.clock.settled);
      } else {
        more, h, s := PrepareAt(b0, more, b, h, s, t, Proceed, m.victim, a.clock.settled);
      }
    }
  }

  lemma MessageIsPrepared(b0: BulkState, steps: seq<BulkStep>, b: BulkState, a: Attempt, problem: Option<Ending>,
                          m: Mark)
    returns (more: seq<BulkStep>)
    requires Arrives(b0, steps, b) && |b.slots| == |b.ids| && b.cursor < |b.ids| && b.ids[b.cursor] == a.id
    requires a.id !in b.sys.handlers && b.sys.clock <= a.clock.arrival
    requires PhaseOneClock(a.clock) && PhaseOneEnding(problem) && PutAllowed(b.sys.store, RecordOf(b, a), m.victim)
    ensures Arrives(b0, more, AfterMessage(b, a, problem, m))
  {
    hide Arrives, PutAllowed, MemoryStores.Put, PhaseOneStore, NewReceived, ReplyOf;
    more := MessageSteps(b0, steps, b, a, problem, m);
    RecordHasId(b, a);
    var p := MemoryStores.Put(b.sys.store, RecordOf(b, a), m.victim);
    var s := PhaseOneStore(p, RecordOf(b, a), problem, m.to, a.clock);
    ExtendBulk(b0, more, WithSystem(b, HandlerAfter(b, a, problem), s, a.clock.settled), Push);
    more := more + [Push];
  }

  // --------------------------------------------------------------------------
  // Phase one of a request
  // --------------------------------------------------------------------------

  function IdsOf(attempts: seq<Attempt>): seq<Id> {
    seq(|attempts|, i requires 0 <= i < |attempts| => attempts[i].id)
  }

  // Ids drawn for a request: distinct, and unknown to the system.
  ghost predicate FreshIds(sys: System, attempts: seq<Attempt>) {
    && (forall i, j :: 0 <= i < j < |attempts| ==> attempts[i].id != attempts[j].id)
    && (forall i :: 0 <= i < |attempts| ==> attempts[i].id !in sys.handlers && attempts[i].id !in sys.delivered)
  }

  // The messages are prepared one after the other. A reading a message does not take may have any value in between.
  ghost predicate OneByOne(from: Instant, attempts: seq<Attempt>) {
    && (forall i :: 0 <= i < |attempts| ==> from <= attempts[i].clock.arrival && PhaseOneClock(attempts[i].clock))
    && (forall i, j :: 0 <= i < j < |attempts| ==> attempts[i].clock.settled <= attempts[j].clock.arrival)
  }

  function StartOf(cfg: Settings, sys: System, who: RateLimiters.Caller, attempts: seq<Attempt>,
                   bulkConcurrency: nat): BulkState {
    BulkStart(sys, who.keyId, cfg.ttlSeconds, bulkConcurrency, IdsOf(attempts))
  }

  function SlotAfter(problem: Option<Ending>): Slot {
    if problem.Some? then TurnedBack else Waiting
  }

  // Where message i stands once n messages have been prepared.
  ghost predicate MessageStands(b: BulkState, cfg: Settings, l: RateLimiters.Limiter, who: RateLimiters.Caller,
                                attempts: seq<Attempt>, n: nat, i: nat)
    requires RateLimiters.Valid(l) && n <= |attempts| && i < |attempts| && |b.slots| == |attempts|
  {
    var a := attempts[i];
    if i < n
    then
      var problem := ProblemAt(cfg, l, who, attempts, i);
      b.slots[i] == SlotAfter(problem) && a.id in b.sys.handlers && b.sys.handlers[a.id] == HandlerAfter(b, a, problem)
    else b.slots[i].Todo? && a.id !in b.sys.handlers
  }

  // Phase one, n messages in: what the loop of `Relay.PrepareAll` has computed is what the protocol holds.
  ghost predicate PhaseOneShape(cfg: Settings, sys: System, l: RateLimiters.Limiter, who: RateLimiters.Caller,
                                attempts: seq<Attempt>, marks: seq<Mark>, bulkConcurrency: nat, n: nat, b: BulkState)
    requires RateLimiters.Valid(l) && n <= |attempts| == |marks|
  {
    && b.ids == IdsOf(attempts) && b.owner == who.keyId && b.ttlSeconds == cfg.ttlSeconds
    && b.bulkConcurrency == bulkConcurrency && b.cursor == n && |b.slots| == |attempts|
    && b.sys.store == StoreAfter(cfg, sys.store, l, who, attempts, marks, n)
    && b.rejected == RejectedAmong(cfg, l, who, attempts, n) && b.submitted == []
    && b.prepared == |PreparedAmong(cfg, l, who, attempts, n)|
    && b.sys.clock == (if n == 0 then sys.clock else attempts[n - 1].clock.settled)
    && b.sys.delivered == sys.delivered
    && (forall i: nat :: i < |attempts| ==> MessageStands(b, cfg, l, who, attempts, n, i))
  }

  lemma ProblemIsPhaseOneEnding(cfg: Settings, l: RateLimiters.Limiter, who: RateLimiters.Caller,
                                attempts: seq<Attempt>, i: nat)
    requires RateLimiters.Valid(l) && i < |attempts|
    ensures PhaseOneEnding(ProblemAt(cfg, l, who, attempts, i))
  {
    hide RateLimiters.Valid, LimiterAfter, RateLimiters.AskTiers, Validations.Acceptable, Validations.FeaturesOk;
  }

  lemma StartHasShape(cfg: Settings, sys: System, l: RateLimiters.Limiter, who: RateLimiters.Caller,
                      attempts: seq<Attempt>, marks: seq<Mark>, bulkConcurrency: nat)
    requires RateLimiters.Valid(l) && |attempts| == |marks| && FreshIds(sys, attempts)
    ensures PhaseOneShape(cfg, sys, l, who, attempts, marks, bulkConcurrency, 0,
                          StartOf(cfg, sys, who, attempts, bulkConcurrency))
  {
    hide RateLimiters.Valid, ProblemAt;
    PhaseOneStarts(cfg, l, who, attempts);
  }

  // The handlers and slots after one more message.
  lemma OneMoreStands(cfg: Settings, l: RateLimiters.Limiter, who: RateLimiters.Caller, attempts: seq<Attempt>,
                      b: BulkState, m: Mark, n: nat, i: nat)
    requires RateLimiters.Valid(l) && n < |attempts| && i < |attempts| && |b.slots| == |attempts| && b.cursor == n
    requires forall j, k :: 0 <= j < k < |attempts| ==> attempts[j].id != attempts[k].id
    requires MessageStands(b, cfg, l, who, attempts, n, i)
    ensures MessageStands(AfterMessage(b, attempts[n], ProblemAt(cfg, l, who, attempts, n), m), cfg, l, who, attempts,
                          n + 1, i)
  {
    hide RateLimiters.Valid, ProblemAt, MemoryStores.Put, PhaseOneStore, NewReceived, ReplyOf;
    RecordHasId(b, attempts[n]);
    assert i != n ==> attempts[i].id != attempts[n].id;
  }

  lemma OneMoreKeepsShape(cfg: Settings, sys: System, l: RateLimiters.Limiter, who: RateLimiters.Caller,
                          attempts: seq<Attempt>, marks: seq<Mark>, bulkConcurrency: nat, n: nat, b: BulkState)
    requires RateLimiters.Valid(l) && n < |attempts| == |marks| && FreshIds(sys, attempts)
    requires PhaseOneShape(cfg, sys, l, who, attempts, marks, bulkConcurrency, n, b)
    ensures PhaseOneShape(cfg, sys, l, who, attempts, marks, bulkConcurrency, n + 1,
                          AfterMessage(b, attempts[n], ProblemAt(cfg, l, who, attempts, n), marks[n]))
  {
    hide RateLimiters.Valid, PhaseOneProblem, LimiterAfter, RejectedAmong, PreparedAmong, MessageStands, ReplyOf;
    hide MemoryStores.Put, PhaseOneStore, NewReceived;
    PhaseOneStep(cfg, l, who, attempts, n);
    var next, rounds := AfterMessage(b, attempts[n], ProblemAt(cfg, l, who, attempts, n), marks[n]), n + 1;
    forall i: nat | i < |attempts|
      ensures MessageStands(next, cfg, l, who, attempts, rounds, i)
    {
      assert MessageStands(b, cfg, l, who, attempts, n, i);
      OneMoreStands(cfg, l, who, attempts, b, marks[n], n, i);
    }
  }

  // The next message is fresh, on time, and its put is allowed.
  lemma NextMessage(cfg: Settings, sys: System, l: RateLimiters.Limiter, who: RateLimiters.Caller,
                    attempts: seq<Attempt>, marks: seq<Mark>, bulkConcurrency: nat, n: nat, b: BulkState)
    requires RateLimiters.Valid(l) && n < |attempts| == |marks| && OneByOne(sys.clock, attempts)
    requires MarksFit(cfg, sys.store, l, who, attempts, marks)
    requires PhaseOneShape(cfg, sys, l, who, attempts, marks, bulkConcurrency, n, b)
    ensures |b.slots| == |b.ids| && b.cursor < |b.ids| && b.ids[b.cursor] == attempts[n].id
    ensures attempts[n].id !in b.sys.handlers && b.sys.clock <= attempts[n].clock.arrival
      && PhaseOneClock(attempts[n].clock)
    ensures PutAllowed(b.sys.store, RecordOf(b, attempts[n]), marks[n].victim)
  {
    hide RateLimiters.Valid, ProblemAt, RejectedAmong, PreparedAmong, StoreAfter, PutAllowed, RecipientsFit;
    assert MessageStands(b, cfg, l, who, attempts, n, n);
    assert MarkFits(cfg, StoreAfter(cfg, sys.store, l, who, attempts, marks, n), who, attempts[n],
                    ProblemAt(cfg, l, who, attempts, n), marks[n]);
  }

  // The first n rounds of the loop of `Relay.PrepareAll` are a schedule of the protocol.
  lemma {:induction false} PhaseOneIsASchedule(cfg: Settings, sys: System, l: RateLimiters.Limiter,
                                               who: RateLimiters.Caller,
                                               attempts: seq<Attempt>, marks: seq<Mark>, bulkConcurrency: nat, n: nat)
    returns (steps: seq<BulkStep>, b: BulkState)
    requires RateLimiters.Valid(l) && n <= |attempts| == |marks|
    requires FreshIds(sys, attempts) && OneByOne(sys.clock, attempts)
    requires MarksFit(cfg, sys.store, l, who, attempts, marks)
    ensures Arrives(StartOf(cfg, sys, who, attempts, bulkConcurrency), steps, b)
    ensures PhaseOneShape(cfg, sys, l, who, attempts, marks, bulkConcurrency, n, b)
  {
    hide RateLimiters.Valid, ProblemAt, RejectedAmong, PreparedAmong, StoreAfter, PhaseOneEnding, PhaseOneStore;
    var b0 := StartOf(cfg, sys, who, attempts, bulkConcurrency);
    if n == 0 {
      steps, b := [], b0;
      StartHasShape(cfg, sys, l, who, attempts, marks, bulkConcurrency);
    } else {
      steps, b := PhaseOneIsASchedule(cfg, sys, l, who, attempts, marks, bulkConcurrency, n - 1);
      NextMessage(cfg, sys, l, who, attempts, marks, bulkConcurrency, n - 1, b);
      ProblemIsPhaseOneEnding(cfg, l, who, attempts, n - 1);
      var problem := ProblemAt(cfg, l, who, attempts, n - 1);
      steps := MessageIsPrepared(b0, steps, b, attempts[n - 1], problem, marks[n - 1]);
      OneMoreKeepsShape(cfg, sys, l, who, attempts, marks, bulkConcurrency, n - 1, b);
      b := AfterMessage(b, attempts[n - 1], problem, marks[n - 1]);
    }
  }

  // Message i waits for a permit after phase one exactly when the loop has listed it as prepared.
  lemma {:induction false} WaitingArePrepared(cfg: Settings, l: RateLimiters.Limiter, who: RateLimiters.Caller,
                                              attempts: seq<Attempt>, n: nat, i: nat)
    requires RateLimiters.Valid(l) && n <= |attempts| && i < |attempts|
    ensures PreparedMessage(i, attempts[i].id) in PreparedAmong(cfg, l, who, attempts, n)
            <==> i < n && SlotAfter(ProblemAt(cfg, l, who, attempts, i)).Waiting?
  {
    hide RateLimiters.Valid, ProblemAt;
    if n > 0 {
      WaitingArePrepared(cfg, l, who, attempts, n - 1, i);
    }
  }

  // --------------------------------------------------------------------------
  // Phase two of one message
  // --------------------------------------------------------------------------

  // The system after what `Relay.SubmitOne` is proved to do.
  function SystemAfterSubmission(sys: System, h: Handler, clock: Clock, smtp: SmtpAnswer): System {
    var e := AnswerEnding(smtp);
    sys.(store := Submitted(sys.store, Bulk, h.record, e, clock),
         handlers := sys.handlers[h.record.id := h.(pc := Finished(e))],
         clock := clock.settled,
         delivered := if smtp.Took? then sys.delivered + {h.record.id} else sys.delivered)
  }

  // The same for the protocol's state; the result is pushed by the join.
  function AfterSubmission(b: BulkState, i: nat, h: Handler, clock: Clock, smtp: SmtpAnswer): BulkState
    requires i < |b.slots|
  {
    b.(sys := SystemAfterSubmission(b.sys, h, clock, smtp),
       slots := b.slots[i := Joined],
       submitted := b.submitted + [MessageResult(i, h.record.id, ReplyOf(Bulk, AnswerEnding(smtp)))])
  }

  predicate ReadyToWork(b: BulkState, i: nat, h: Handler) {
    && |b.slots| == |b.ids| && !InPhaseOne(b) && i < |b.ids| && h.record.id == b.ids[i]
    && b.ids[i] in b.sys.handlers && b.sys.handlers[b.ids[i]] == h
  }

  function Worked(sys: System, h: Handler, c: Choice, now: Instant): System
    requires CanAct(h, c)
  {
    sys.(store := Perform(sys.store, h, ActionOf(h, c), "", now),
         handlers := sys.handlers[h.record.id := h.(pc := NextPc(h, c))],
         clock := now,
         delivered := if c == SmtpAnswers(Delivered) then sys.delivered + {h.record.id} else sys.delivered)
  }

  // A wait, then one step of a message that holds a permit.
  lemma WorkAt(b0: BulkState, steps: seq<BulkStep>, b: BulkState, i: nat, h: Handler, c: Choice, now: Instant)
    returns (more: seq<BulkStep>, b': BulkState)
    requires Arrives(b0, steps, b) && ReadyToWork(b, i, h) && b.slots[i].Holding?
    requires CanAct(h, c) && !h.pc.Arrived? && b.sys.clock <= now
    ensures b' == b.(sys := Worked(b.sys, h, c, now))
    ensures Arrives(b0, more, b') && ReadyToWork(b', i, h.(pc := NextPc(h, c)))
  {
    hide Arrives, Perform, NextPc, ActionOf, CanAct;
    more := WaitUntil(b0, steps, b, now);
    var later := b.(sys := b.sys.(clock := now));
    ExtendBulk(b0, more, later, Work(i, c, ""));
    more := more + [Work(i, c, "")];
    b' := BulkNext(later, Work(i, c, ""));
  }

  // The three steps between acquiring and releasing add up to the submission.
  lemma StepsOfSubmission(sys: System, h: Handler, clock: Clock, smtp: SmtpAnswer)
    requires h.kind.Bulk? && h.pc.Prepared?
    ensures var e := AnswerEnding(smtp);
            var flying, settling := h.(pc := InFlight), h.(pc := Settling(e));
            && CanAct(h, Proceed) && h.(pc := NextPc(h, Proceed)) == flying
            && CanAct(flying, SmtpAnswers(e)) && flying.(pc := NextPc(flying, SmtpAnswers(e))) == settling
            && CanAct(settling, Proceed) && settling.(pc := NextPc(settling, Proceed)) == h.(pc := Finished(e))
            && Worked(Worked(Worked(sys, h, Proceed, clock.started), flying, SmtpAnswers(e), clock.started), settling,
                      Proceed, clock.settled)
               == SystemAfterSubmission(sys, h, clock, smtp)
  {
    hide UpdateStatus, LastUpdate;
    var e, id := AnswerEnding(smtp), h.record.id;
    var flying, settling, finished := h.(pc := InFlight), h.(pc := Settling(e)), h.(pc := Finished(e));
    assert sys.handlers[id := flying][id := settling][id := finished] == sys.handlers[id := finished];
  }

  lemma WorkedClock(sys: System, h: Handler, c: Choice, now: Instant)
    requires CanAct(h, c)
    ensures Worked(sys, h, c, now).clock == now
  {
  }

  // Submitting one message, with a permit free, is a schedule of the protocol: acquire, work, release, join.
  lemma SubmissionIsASchedule(b0: BulkState, steps: seq<BulkStep>, b: BulkState, i: nat, h: Handler, clock: Clock,
                              smtp: SmtpAnswer)
    returns (more: seq<BulkStep>)
    requires Arrives(b0, steps, b) && ReadyToWork(b, i, h) && h.kind.Bulk? && h.pc.Prepared? && b.slots[i].Waiting?
    requires |HeldBy(b.slots)| < Permits(b)
    requires b.sys.clock <= clock.started <= clock.settled
    ensures Arrives(b0, more, AfterSubmission(b, i, h, clock, smtp))
  {
    hide Arrives, HeldBy, Permits, Worked, CanAct, NextPc, SystemAfterSubmission, ReplyOf;
    var e := AnswerEnding(smtp);
    StepsOfSubmission(b.sys, h, clock, smtp);
    ExtendBulk(b0, steps, b, Acquire(i));
    more := steps + [Acquire(i)];
    var b' := b.(slots := b.slots[i := Holding]);
    more, b' := WorkAt(b0, more, b', i, h, Proceed, clock.started);
    WorkedClock(b.sys, h, Proceed, clock.started);
    more, b' := WorkAt(b0, more, b', i, h.(pc := InFlight), SmtpAnswers(e), clock.started);
    WorkedClock(Worked(b.sys, h, Proceed, clock.started), h.(pc := InFlight), SmtpAnswers(e), clock.started);
    more, b' := WorkAt(b0, more, b', i, h.(pc := Settling(e)), Proceed, clock.settled);
    ExtendBulk(b0, more, b', Release(i));
    more := more + [Release(i)];
    b' := b'.(slots := b'.slots[i := Ended]);
    ExtendBulk(b0, more, b', Join(i));
    more := more + [Join(i)];
    assert b.slots[i := Holding][i := Ended][i := Joined] == b.slots[i := Joined];
  }

  // --------------------------------------------------------------------------
  // What the response says
  // --------------------------------------------------------------------------

  // A message rejected in phase one.
  ghost predicate RejectedWith(b: BulkState, i: nat, e: Ending)
    requires |b.slots| == |b.ids| && i < |b.ids|
  {
    b.slots[i].TurnedBack? && b.ids[i] in b.sys.handlers && b.sys.handlers[b.ids[i]].pc == Finished(e)
  }

  // A message handed to phase two: from now on only the SMTP server decides.
  ghost predicate LeftToSmtp(b: BulkState, i: nat)
    requires |b.slots| == |b.ids| && i < |b.ids|
  {
    var id := b.ids[i];
    && !b.slots[i].Todo? && !b.slots[i].TurnedBack? && id in b.sys.handlers
    && match b.sys.handlers[id].pc
       case Prepared => id !in b.sys.delivered
       case InFlight => id !in b.sys.delivered
       case Settling(e) => !e.TurnedAway? && (e.Delivered? <==> id in b.sys.delivered)
       case Finished(e) => !e.TurnedAway? && (e.Delivered? <==> id in b.sys.delivered)
       case _ => false
  }

  ghost predicate Placed(b: BulkState, i: nat, problem: Option<Ending>)
    requires |b.slots| == |b.ids| && i < |b.ids|
  {
    if problem.Some? then RejectedWith(b, i, problem.value) else LeftToSmtp(b, i)
  }

  // Phase one is over, and each message is where phase one left it or further on.
  ghost predicate AllPlaced(b: BulkState, problems: seq<Option<Ending>>) {
    && BulkInv(b) && !InPhaseOne(b) && |problems| == |b.ids|
    && forall i: nat :: i < |b.ids| ==> Placed(b, i, problems[i])
  }

  // A step of the system that does not concern the message.
  lemma ElsewhereKeepsPlace(b: BulkState, s: BulkStep, i: nat, problem: Option<Ending>)
    requires BulkInv(b) && BulkEnabled(b, s) && !InPhaseOne(b) && i < |b.ids| && Moves(b, s) != i
    requires Placed(b, i, problem)
    ensures |BulkNext(b, s).slots| == |b.ids| && Placed(BulkNext(b, s), i, problem)
  {
    hide Perform;
    if Moves(b, s) < |b.ids| {
      assert b.ids[i] != b.ids[Moves(b, s)];
    }
  }

  lemma OwnStepKeepsPlace(b: BulkState, s: BulkStep, i: nat, problem: Option<Ending>)
    requires BulkInv(b) && BulkEnabled(b, s) && !InPhaseOne(b) && i < |b.ids| && Moves(b, s) == i
    requires Placed(b, i, problem)
    ensures |BulkNext(b, s).slots| == |b.ids| && Placed(BulkNext(b, s), i, problem)
  {
    hide Perform;
    assert SlotFits(b, i);
  }

  lemma PhaseOneStaysOver(b: BulkState, s: BulkStep)
    requires BulkInv(b) && BulkEnabled(b, s) && !InPhaseOne(b)
    ensures !InPhaseOne(BulkNext(b, s)) && BulkNext(b, s).ids == b.ids && |BulkNext(b, s).slots| == |b.ids| == |b.slots|
  {
  }

  lemma StepKeepsPlaces(b: BulkState, s: BulkStep, problems: seq<Option<Ending>>)
    requires AllPlaced(b, problems) && BulkEnabled(b, s)
    ensures AllPlaced(BulkNext(b, s), problems) && BulkNext(b, s).ids == b.ids
  {
    hide BulkInv, BulkEnabled, Placed;
    StepKeepsBulkInv(b, s);
    PhaseOneStaysOver(b, s);
    forall i: nat | i < |b.ids|
      ensures Placed(BulkNext(b, s), i, problems[i])
    {
      assert Placed(b, i, problems[i]);
      if Moves(b, s) == i {
        OwnStepKeepsPlace(b, s, i, problems[i]);
      } else {
        ElsewhereKeepsPlace(b, s, i, problems[i]);
      }
    }
  }

  lemma {:induction false} PlacesKept(b: BulkState, steps: seq<BulkStep>, problems: seq<Option<Ending>>)
    requires AllPlaced(b, problems) && BulkSchedule(b, steps)
    ensures AllPlaced(BulkAfter(b, steps), problems) && BulkAfter(b, steps).ids == b.ids
    decreases |steps|
  {
    hide AllPlaced, BulkEnabled, BulkNext;
    if steps != [] {
      StepKeepsPlaces(b, steps[0], problems);
      PlacesKept(BulkNext(b, steps[0]), steps[1..], problems);
    }
  }

  // What a request whose phase one ended like this tells its client about message i.
  function ReplyFor(problem: Option<Ending>, delivered: bool): Reply {
    if problem.Some? then ReplyOf(Bulk, problem.value) else if delivered then Accepted else Refused(SmtpUnavailable)
  }

  // However phase two is scheduled and whatever else happens: the complete response gives a message rejected in
  // phase one its reason, and any other what the SMTP server said.
  lemma ResponseFromPlaces(b: BulkState, problems: seq<Option<Ending>>)
    requires AllPlaced(b, problems) && Complete(b)
    ensures |Respond(b).results| == |b.ids| == Respond(b).total
    ensures Respond(b).accepted == |set i: nat | i < |b.ids| && Respond(b).results[i].reply.Accepted? :: i|
    ensures Respond(b).rejected == |set i: nat | i < |b.ids| && !Respond(b).results[i].reply.Accepted? :: i|
    ensures forall i: nat :: i < |b.ids| ==>
      Respond(b).results[i] == MessageResult(i, b.ids[i], ReplyFor(problems[i], b.ids[i] in b.sys.delivered))
  {
    ResponseListsEveryMessage(b);
    hide BulkInv, Respond;
    forall i: nat | i < |b.ids|
      ensures Respond(b).results[i] == MessageResult(i, b.ids[i], ReplyFor(problems[i], b.ids[i] in b.sys.delivered))
    {
      assert Finishes(b, i) && Respond(b).results[i] == ResultAt(b, i);
      assert Placed(b, i, problems[i]);
    }
  }

  ghost function ProblemsOf(cfg: Settings, l: RateLimiters.Limiter, who: RateLimiters.Caller,
                            attempts: seq<Attempt>): (p: seq<Option<Ending>>)
    requires RateLimiters.Valid(l)
    ensures |p| == |attempts|
  {
    seq(|attempts|, i requires 0 <= i < |attempts| => ProblemAt(cfg, l, who, attempts, i))
  }

  // Phase one places every message.
  lemma PhaseOnePlaces(cfg: Settings, sys: System, l: RateLimiters.Limiter, who: RateLimiters.Caller,
                      attempts: seq<Attempt>, marks: seq<Mark>, bulkConcurrency: nat, b: BulkState)
    requires RateLimiters.Valid(l) && |attempts| == |marks| && FreshIds(sys, attempts) && BulkInv(b)
    requires PhaseOneShape(cfg, sys, l, who, attempts, marks, bulkConcurrency, |attempts|, b)
    ensures AllPlaced(b, ProblemsOf(cfg, l, who, attempts))
  {
    hide RateLimiters.Valid, ProblemAt, RejectedAmong, PreparedAmong, StoreAfter, BulkInv;
    assert |b.slots| == |b.ids|;
    forall i: nat | i < |b.ids|
      ensures Placed(b, i, ProblemAt(cfg, l, who, attempts, i))
    {
      assert MessageStands(b, cfg, l, who, attempts, |attempts|, i);
      ProblemIsPhaseOneEnding(cfg, l, who, attempts, i);
    }
  }

  ghost function ContentReply(cfg: Settings, who: RateLimiters.Caller, a: Attempt, delivered: bool): Reply {
    var ctx := Validations.Context(cfg.mail, Policies.FindKey(cfg.keys, who.keyId), cfg.isAddress);
    if !Validations.FeaturesOk(ctx, a.request) then Refused(InternalError)
    else if !Validations.Acceptable(ctx, a.request) then Refused(ValidationFailed)
    else if !a.builds then Refused(InternalError)
    else if delivered then Accepted
    else Refused(SmtpUnavailable)
  }

  // How the content of a message decides its result.
  lemma ContentSpelledOut(cfg: Settings, who: RateLimiters.Caller, a: Attempt, delivered: bool)
    ensures ReplyFor(ContentProblem(ContextFor(cfg, who), a.request, a.builds), delivered)
            == ContentReply(cfg, who, a, delivered)
  {
    hide Validations.Acceptable, Validations.FeaturesOk, Policies.FindKey;
    FeaturesFirst(ContextFor(cfg, who), a.request);
  }

  lemma StartKeepsInv(cfg: Settings, sys: System, who: RateLimiters.Caller, attempts: seq<Attempt>,
                      bulkConcurrency: nat, phaseOne: seq<BulkStep>, b: BulkState)
    requires Inv(sys) && FreshIds(sys, attempts)
    requires Arrives(StartOf(cfg, sys, who, attempts, bulkConcurrency), phaseOne, b)
    ensures BulkInv(b)
  {
    hide BulkInv, Inv, BulkSchedule;
    BulkStartFits(sys, who.keyId, cfg.ttlSeconds, bulkConcurrency, IdsOf(attempts));
    BulkInvAlways(StartOf(cfg, sys, who, attempts, bulkConcurrency), phaseOne);
  }

  // From admission to the response: with no refill and no other traffic during phase one, the limiter admits
  // exactly the first min(floor g, floor i, floor k) messages. However phase two is then scheduled, the complete
  // response refuses all later ones as rate limited, and answers each admitted one as its content decides or,
  // if that is in order, as the SMTP server does.
  lemma ResponseIsDecided(cfg: Settings, sys: System, l: RateLimiters.Limiter, who: RateLimiters.Caller,
                          attempts: seq<Attempt>, marks: seq<Mark>, bulkConcurrency: nat, now: real,
                          phaseOne: seq<BulkStep>, b: BulkState, steps: seq<BulkStep>)
    requires RateLimiters.Valid(l) && RateLimiters.ValidAt(l, now) && AllAt(attempts, now)
    requires |attempts| == |marks| && Inv(sys) && FreshIds(sys, attempts)
    requires Arrives(StartOf(cfg, sys, who, attempts, bulkConcurrency), phaseOne, b)
    requires PhaseOneShape(cfg, sys, l, who, attempts, marks, bulkConcurrency, |attempts|, b)
    requires BulkSchedule(b, steps) && Complete(BulkAfter(b, steps))
    ensures var end, p := BulkAfter(b, steps), RateLimiters.PurseOf(l, who, now);
            var admitted := Min(p.global.Floor, Min(p.ip.Floor, p.key.Floor));
            var ctx := Validations.Context(cfg.mail, Policies.FindKey(cfg.keys, who.keyId), cfg.isAddress);
            && |Respond(end).results| == |attempts| == Respond(end).total
            && forall i: nat :: i < |attempts| ==>
              Respond(end).results[i] == MessageResult(i, attempts[i].id,
                if admitted <= i then Refused(RateLimitExceeded)
                else if !Validations.FeaturesOk(ctx, attempts[i].request) then Refused(InternalError)
                else if !Validations.Acceptable(ctx, attempts[i].request) then Refused(ValidationFailed)
                else if !attempts[i].builds then Refused(InternalError)
                else if attempts[i].id in end.sys.delivered then Accepted
                else Refused(SmtpUnavailable))
    ensures var response := Respond(BulkAfter(b, steps));
            && response.accepted == |set i: nat | i < |attempts| && response.results[i].reply.Accepted? :: i|
            && response.rejected == |set i: nat | i < |attempts| && !response.results[i].reply.Accepted? :: i|
  {
    hide RateLimiters.ValidAt, RateLimiters.Valid, RateLimiters.PurseOf, ProblemAt, ContentProblem, RejectedAmong;
    hide PreparedAmong, StoreAfter, BulkInv, AllPlaced, Respond, MessageStands, BulkAfter, BulkSchedule, Complete;
    StartKeepsInv(cfg, sys, who, attempts, bulkConcurrency, phaseOne, b);
    var problems := ProblemsOf(cfg, l, who, attempts);
    BulkPhaseOneOutcome(cfg, l, who, attempts, now);
    PhaseOnePlaces(cfg, sys, l, who, attempts, marks, bulkConcurrency, b);
    PlacesKept(b, steps, problems);
    ResponseFromPlaces(BulkAfter(b, steps), problems);
    var end, results, p := BulkAfter(b, steps), Respond(BulkAfter(b, steps)).results, RateLimiters.PurseOf(l, who, now);
    var admitted := Min(p.global.Floor, Min(p.ip.Floor, p.key.Floor));
    forall i: nat | i < |attempts|
      ensures problems[i] == ProblemAt(cfg, l, who, attempts, i) && end.ids[i] == attempts[i].id
      ensures admitted <= i ==> results[i].reply == Refused(RateLimitExceeded)
      ensures i < admitted ==>
        results[i].reply
        == ReplyFor(ContentProblem(ContextFor(cfg, who), attempts[i].request, attempts[i].builds),
                    attempts[i].id in end.sys.delivered)
    {
      ProblemIsPhaseOneEnding(cfg, l, who, attempts, i);
    }
    forall i: nat | i < admitted && i < |attempts|
      ensures ContentReply(cfg, who, attempts[i], attempts[i].id in end.sys.delivered)
              == ReplyFor(ContentProblem(ContextFor(cfg, who), attempts[i].request, attempts[i].builds),
                          attempts[i].id in end.sys.delivered)
    {
      ContentSpelledOut(cfg, who, attempts[i], attempts[i].id in end.sys.delivered);
    }
    assert |end.ids| == |attempts|;
    assert (set i: nat | i < |end.ids| && results[i].reply.Accepted? :: i)
        == set i: nat | i < |attempts| && results[i].reply.Accepted? :: i;
    assert (set i: nat | i < |end.ids| && !results[i].reply.Accepted? :: i)
        == set i: nat | i < |attempts| && !results[i].reply.Accepted? :: i;
  }
}
