// All handlers running against one in-memory store, with sweeps, reloads, lookups and
// cancellations as steps of the environment, in any interleaving.
module Lifecycle {
  import opened Prelude
  import opened Statuses
  import opened MemoryStores
  import opened MemoryRuns
  import opened Handlers

  // `delivered` are the messages for which the SMTP server said yes.
  datatype System = System(store: Store, handlers: map<Id, Handler>, clock: Instant, delivered: set<Id>)

  datatype Event =
    | Arrive(id: Id, kind: Kind, owner: KeyId, ttlSeconds: nat)
    | Act(id: Id, choice: Choice, victim: Id)
    | Cancel(id: Id)
    | Environment(op: Op)
    | Tick(nanos: nat)

  predicate Enabled(sys: System, e: Event) {
    match e
    case Arrive(id, _, _, _) => id !in sys.handlers
    case Act(id, c, victim) =>
      && id in sys.handlers && CanAct(sys.handlers[id], c)
      && (sys.handlers[id].pc.Arrived? ==> PutAllowed(sys.store, sys.handlers[id].record, victim))
    case Cancel(id) => id in sys.handlers && !sys.handlers[id].pc.Finished?
    case Environment(op) =>
      && (op.GetOp? || op.WritePhaseOp? || op.SweepOp? || op.CountOp? || op.ReloadOp?)
      && Allowed(sys.store, op)
      && (op.GetOp? || op.WritePhaseOp? || op.SweepOp? ==> op.now <= sys.clock)
    case Tick(_) => true
  }

  function Perform(s: Store, h: Handler, a: Action, victim: Id, now: Instant): Store {
    match a
    case NoAction => s
    case PutAction => Put(s, h.record, victim)
    case MetadataAction(domains, count) => SetMetadata(s, h.record.id, h.record.owner, domains, count, now)
    case UpdateAction(u) => UpdateStatus(s, h.record.id, h.record.owner, u, now)
  }

  function Next(sys: System, e: Event): System
    requires Enabled(sys, e)
  {
    match e
    case Arrive(id, kind, owner, ttl) =>
      sys.(handlers := sys.handlers[id := Handler(kind, NewReceived(id, owner, ttl, sys.clock), Arrived)])
    case Act(id, c, victim) =>
      var h := sys.handlers[id];
      sys.(store := Perform(sys.store, h, ActionOf(h, c), victim, sys.clock),
           handlers := sys.handlers[id := h.(pc := NextPc(h, c))],
           delivered := if c == SmtpAnswers(Delivered) then sys.delivered + {id} else sys.delivered)
    case Cancel(id) => sys.(handlers := sys.handlers[id := sys.handlers[id].(pc := Cancelled)])
    case Environment(op) => sys.(store := Step(sys.store, op))
    case Tick(n) => sys.(clock := sys.clock + n)
  }

  // --------------------------------------------------------------------------
  // The invariant
  // --------------------------------------------------------------------------

  // The status a record may have while its handler is at `pc`. Updates are lost only on a
  // record that has expired, and such a record is never served again.
  ghost predicate StatusFits(h: Handler, status: Status, code: Option<ErrorCode>, expired: bool) {
    match h.pc
    case Arrived => false
    case Recorded => status.Received?
    case Validated => status.Received?
    case Described => status.Received?
    case Prepared => status.Received?
    case InFlight => status.SubmissionStarted? || (status.Received? && expired)
    case Settling(TurnedAway(_, _)) => status.Received?
    case Settling(_) => status.SubmissionStarted? || (status.Received? && expired)
    case Finished(e) =>
      || (status == LastUpdate(h.kind, e).status && code == LastUpdate(h.kind, e).code)
      || (!Terminal(status) && expired)
    case Cancelled => !Terminal(status)
  }

  ghost predicate HandlerFits(id: Id, h: Handler, delivered: set<Id>) {
    && h.record.id == id && h.record.status.Received?
    && (h.pc.Settling? || h.pc.Finished? ==>
          Possible(h.kind, h.pc.ending) && (h.pc.ending.Delivered? ==> id in delivered))
  }

  ghost predicate RecordFits(h: Handler, r: Record, clock: Instant) {
    && r.id == h.record.id && r.owner == h.record.owner
    && r.created == h.record.created && r.expires == h.record.expires
    && StatusFits(h, r.status, r.code, Expired(r, clock))
  }

  ghost predicate IdFits(sys: System, id: Id) {
    && (id in sys.handlers ==> HandlerFits(id, sys.handlers[id], sys.delivered))
    && (id in sys.store.records ==>
          id in sys.handlers && RecordFits(sys.handlers[id], sys.store.records[id], sys.clock))
  }

  ghost predicate Inv(sys: System) {
    forall id :: IdFits(sys, id)
  }

  // What one step may do to one record: nothing, only its metadata, or one edge of the lifecycle.
  ghost predicate OneEdge(r: Record, r': Record) {
    && r'.id == r.id && r'.owner == r.owner && r'.created == r.created && r'.expires == r.expires
    && ((r'.status == r.status && r'.code == r.code && r'.message == r.message) || Edge(r.status, r'.status))
  }

  // What one step may do to one id: a record appears only when its handler puts it.
  ghost predicate IdMoves(sys: System, sys': System, id: Id) {
    && (id in sys.store.records && id in sys'.store.records ==> OneEdge(sys.store.records[id], sys'.store.records[id]))
    && (id !in sys.store.records && id in sys'.store.records ==>
          id in sys.handlers && sys.handlers[id].pc.Arrived? && sys'.store.records[id].status.Received?)
    && (id in sys.handlers ==> id in sys'.handlers && (sys'.handlers[id].pc.Arrived? ==> sys.handlers[id].pc.Arrived?))
  }

  // Environment steps only remove records.
  lemma EnvironmentOnlyRemoves(s: Store, op: Op, id: Id)
    requires Allowed(s, op) && (op.GetOp? || op.WritePhaseOp? || op.SweepOp? || op.CountOp? || op.ReloadOp?)
    ensures id in Step(s, op).records ==> id in s.records && Step(s, op).records[id] == s.records[id]
  {
  }

  // An action touches only its own record, apart from the victim of a put.
  lemma ActionIsLocal(s: Store, h: Handler, a: Action, victim: Id, now: Instant, id: Id)
    requires id != h.record.id
    ensures id in Perform(s, h, a, victim, now).records ==>
      id in s.records && Perform(s, h, a, victim, now).records[id] == s.records[id]
  {
  }

  lemma OwnAction(sys: System, id: Id, c: Choice, victim: Id)
    requires IdFits(sys, id) && Enabled(sys, Act(id, c, victim))
    ensures IdFits(Next(sys, Act(id, c, victim)), id) && IdMoves(sys, Next(sys, Act(id, c, victim)), id)
  {
    var h := sys.handlers[id];
    if id in sys.store.records && h.pc.Settling? {
      StoredCodeMatchesReply(h.kind, h.pc.ending);
    }
  }

  lemma EventKeepsId(sys: System, e: Event, id: Id)
    requires IdFits(sys, id) && Enabled(sys, e)
    requires e.Act? ==> IdFits(sys, e.id)
    ensures IdFits(Next(sys, e), id) && IdMoves(sys, Next(sys, e), id)
  {
    match e
    case Act(other, c, victim) =>
      if other == id {
        OwnAction(sys, id, c, victim);
      } else {
        ActionIsLocal(sys.store, sys.handlers[other], ActionOf(sys.handlers[other], c), victim, sys.clock, id);
      }
    case Environment(op) => EnvironmentOnlyRemoves(sys.store, op, id);
    case _ =>
  }

  lemma EventKeepsInv(sys: System, e: Event)
    requires Inv(sys) && Enabled(sys, e)
    ensures Inv(Next(sys, e)) && forall id :: IdMoves(sys, Next(sys, e), id)
  {
    forall id
      ensures IdFits(Next(sys, e), id) && IdMoves(sys, Next(sys, e), id)
    {
      assert IdFits(sys, id);
      if e.Act? {
        assert IdFits(sys, e.id);
      }
      EventKeepsId(sys, e, id);
    }
  }

  // --------------------------------------------------------------------------
  // Whole runs
  // --------------------------------------------------------------------------

  ghost predicate Schedule(sys: System, events: seq<Event>)
    decreases |events|
  {
    events == [] || (Enabled(sys, events[0]) && Schedule(Next(sys, events[0]), events[1..]))
  }

  function After(sys: System, events: seq<Event>): System
    requires Schedule(sys, events)
    decreases |events|
  {
    if events == [] then sys else After(Next(sys, events[0]), events[1..])
  }

  function Start(maxRecords: nat, clock: Instant): System {
    System(EmptyStore(maxRecords), map[], clock, {})
  }

  ghost predicate Gone(sys: System, id: Id) {
    id !in sys.store.records && id in sys.handlers && !sys.handlers[id].pc.Arrived?
  }

  // A removed record never comes back.
  lemma {:induction false} GoneForGood(sys: System, events: seq<Event>, id: Id)
    requires Inv(sys) && Schedule(sys, events) && Gone(sys, id)
    ensures Gone(After(sys, events), id)
    decreases |events|
  {
    if events != [] {
      EventKeepsInv(sys, events[0]);
      assert IdMoves(sys, Next(sys, events[0]), id);
      GoneForGood(Next(sys, events[0]), events[1..], id);
    }
  }

  // Between any two moments at which a record can be looked up it has moved along edges of the
  // lifecycle only, its identity and lifetime are unchanged, and a terminal status has kept its
  // code and message.
  lemma {:induction false} RecordsFollowTheLifecycle(sys: System, events: seq<Event>, id: Id)
    requires Inv(sys) && Schedule(sys, events)
    requires id in sys.store.records && id in After(sys, events).store.records
    ensures Inv(After(sys, events))
    ensures Follows(sys.store.records[id], After(sys, events).store.records[id])
    decreases |events|
  {
    if events != [] {
      var sys' := Next(sys, events[0]);
      EventKeepsInv(sys, events[0]);
      assert IdMoves(sys, sys', id);
      assert IdFits(sys, id);
      if id !in sys'.store.records {
        assert Gone(sys', id) by { assert IdFits(sys', id); }
        GoneForGood(sys', events[1..], id);
        assert false;
      } else {
        RecordsFollowTheLifecycle(sys', events[1..], id);
        FollowsIsTransitive(sys.store.records[id], sys'.store.records[id], After(sys, events).store.records[id]);
      }
    }
  }

  lemma {:induction false} InvAlways(sys: System, events: seq<Event>)
    requires Inv(sys) && Schedule(sys, events)
    ensures Inv(After(sys, events))
    decreases |events|
  {
    if events != [] {
      EventKeepsInv(sys, events[0]);
      InvAlways(Next(sys, events[0]), events[1..]);
    }
  }

  // A lookup sees SmtpAccepted only after the SMTP server accepted that message.
  lemma AcceptedOnlyAfterDelivery(maxRecords: nat, clock: Instant, events: seq<Event>, id: Id, key: KeyId)
    requires Schedule(Start(maxRecords, clock), events)
    ensures var sys := After(Start(maxRecords, clock), events);
            var seen := Found(sys.store, id, key, sys.clock);
            seen.Some? && seen.value.status.SmtpAccepted? ==> id in sys.delivered
  {
    var sys := After(Start(maxRecords, clock), events);
    InvAlways(Start(maxRecords, clock), events);
    assert IdFits(sys, id);
    if id in sys.store.records && sys.handlers[id].pc.Finished? {
      StoredCodeMatchesReply(sys.handlers[id].kind, sys.handlers[id].pc.ending);
    }
  }

  // Once a handler has replied, whatever a lookup still finds is terminal and says what
  // the client was told. The code differs only for a single send with a disabled feature.
  lemma RecordAgreesWithReply(sys: System, id: Id)
    requires Inv(sys) && id in sys.handlers && sys.handlers[id].pc.Finished?
    ensures var h := sys.handlers[id];
            var reply, seen := ReplyOf(h.kind, h.pc.ending), Found(sys.store, id, h.record.owner, sys.clock);
            seen.Some? ==>
              && Terminal(seen.value.status)
              && (seen.value.status.SmtpAccepted? <==> reply.Accepted?)
              && (seen.value.code == (match reply case Accepted => None case Refused(c) => Some(c))
                  <==> !(h.kind.Single? && h.pc.ending == TurnedAway(Validation, FeatureDisabledError)))
  {
    var h := sys.handlers[id];
    assert IdFits(sys, id);
    StoredCodeMatchesReply(h.kind, h.pc.ending);
  }
}
