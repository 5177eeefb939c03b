// All handlers running against one SQLite store, in any interleaving with lookups, sweeps, evictions, reloads
// and cancellations, whatever the capacity.
//
// Every statement compares a clock reading that was taken before the connection was locked, so it may be old; one
// handler's readings do not go back.
module SqliteLifecycle {
  import opened Prelude
  import opened Statuses
  import opened TextOrder
  import opened Timestamps
  import opened Handlers
  import opened SqliteStores
  import Lifecycle

  // `read` is the last reading each handler has taken.
  datatype System = System(
    table: Table, handlers: map<Id, Handler>, read: map<Id, Instant>, clock: Instant, delivered: set<Id>)

  datatype Event =
    | Arrive(id: Id, kind: Kind, owner: KeyId, ttlSeconds: nat)
    | Act(id: Id, choice: Choice, victims: set<Id>, stamp: Instant)
    | Cancel(id: Id)
    | Lookup(id: Id, key: KeyId, stamp: Instant)
    | SweepRun(stamp: Instant, victims: set<Id>)
    | Reload(maxRecords: nat)
    | Tick(nanos: nat)

  predicate Readable(sys: System, stamp: Instant) {
    stamp <= sys.clock && InRange(stamp)
  }

  predicate Enabled(sys: System, e: Event) {
    match e
    case Arrive(id, kind, owner, ttl) => id !in sys.handlers && Stampable(NewReceived(id, owner, ttl, sys.clock))
    case Act(id, c, victims, stamp) =>
      && id in sys.handlers && CanAct(sys.handlers[id], c) && Readable(sys, stamp)
      && id in sys.read && sys.read[id] <= stamp
      && (sys.handlers[id].pc.Arrived? ==> EvictAllowed(sys.table, victims) && Stampable(sys.handlers[id].record))
    case Cancel(id) => id in sys.handlers && !sys.handlers[id].pc.Finished?
    case Lookup(_, _, stamp) => Readable(sys, stamp)
    case SweepRun(stamp, victims) => Readable(sys, stamp) && EvictAllowed(DeleteExpired(sys.table, stamp), victims)
    case _ => true
  }

  function Perform(t: Table, h: Handler, a: Action, victims: set<Id>, stamp: Instant): Table
    requires InRange(stamp) && (a.PutAction? ==> Stampable(h.record))
  {
    match a
    case NoAction => t
    case PutAction => PutRow(t, h.record, victims)
    case MetadataAction(domains, count) => SetRowMetadata(t, h.record.id, h.record.owner, domains, count)
    case UpdateAction(u) => UpdateRow(t, h.record.id, h.record.owner, u, stamp)
  }

  function Next(sys: System, e: Event): System
    requires Enabled(sys, e)
  {
    match e
    case Arrive(id, kind, owner, ttl) =>
      sys.(handlers := sys.handlers[id := Handler(kind, NewReceived(id, owner, ttl, sys.clock), Arrived)],
           read := sys.read[id := sys.clock])
    case Act(id, c, victims, stamp) =>
      var h := sys.handlers[id];
      sys.(table := Perform(sys.table, h, ActionOf(h, c), victims, stamp),
           handlers := sys.handlers[id := h.(pc := NextPc(h, c))],
           read := sys.read[id := stamp],
           delivered := if c == SmtpAnswers(Delivered) then sys.delivered + {id} else sys.delivered)
    case Cancel(id) => sys.(handlers := sys.handlers[id := sys.handlers[id].(pc := Cancelled)])
    case Lookup(id, key, stamp) => sys.(table := AfterSelect(sys.table, id, key, stamp))
    case SweepRun(stamp, victims) => sys.(table := SweepRows(sys.table, stamp, victims))
    case Reload(maxRecords) => sys.(table := sys.table.(maxRecords := maxRecords))
    case Tick(n) => sys.(clock := sys.clock + n)
  }

  // --------------------------------------------------------------------------
  // The invariant
  // --------------------------------------------------------------------------

  ghost predicate HandlerFits(id: Id, h: Handler, delivered: set<Id>) {
    Lifecycle.HandlerFits(id, h, delivered) && Stampable(h.record)
  }

  ghost predicate RowFits(h: Handler, row: Row, read: Instant) {
    && Stampable(h.record)
    && row.owner == h.record.owner && row.created == Text(h.record.created) && row.expires == Text(h.record.expires)
    && Lifecycle.StatusFits(h, row.status, row.code, h.record.expires <= read)
  }

  ghost predicate IdFits(sys: System, id: Id) {
    && (id in sys.handlers ==>
          HandlerFits(id, sys.handlers[id], sys.delivered) && id in sys.read && sys.read[id] <= sys.clock)
    && (id in sys.table.rows ==> id in sys.handlers && RowFits(sys.handlers[id], sys.table.rows[id], sys.read[id]))
  }

  ghost predicate Inv(sys: System) {
    forall id :: IdFits(sys, id)
  }

  predicate SameIdentity(row: Row, later: Row) {
    later.owner == row.owner && later.created == row.created && later.expires == row.expires
  }

  predicate SameOutcome(row: Row, later: Row) {
    later.status == row.status && later.code == row.code && later.message == row.message
  }

  // A row may look like this later: the counterpart of `Follows`.
  predicate RowFollows(row: Row, later: Row) {
    && SameIdentity(row, later) && Leads(row.status, later.status)
    && (Terminal(row.status) ==> SameOutcome(row, later))
  }

  // What one event may do to one id.
  ghost predicate IdMoves(sys: System, sys': System, id: Id) {
    && (id in sys.table.rows && id in sys'.table.rows ==>
          && SameIdentity(sys.table.rows[id], sys'.table.rows[id])
          && (SameOutcome(sys.table.rows[id], sys'.table.rows[id])
              || Edge(sys.table.rows[id].status, sys'.table.rows[id].status)))
    && (id !in sys.table.rows && id in sys'.table.rows ==> id in sys.handlers && sys.handlers[id].pc.Arrived?)
    && (id in sys.handlers ==> id in sys'.handlers && (sys'.handlers[id].pc.Arrived? ==> sys.handlers[id].pc.Arrived?))
    && (id in sys.handlers && sys.handlers[id].pc.Finished? ==>
          sys'.handlers[id] == sys.handlers[id] && id in sys.read && id in sys'.read && sys'.read[id] == sys.read[id])
  }

  // On a row that fits, the text test of the statements is the test on instants.
  lemma TestFits(h: Handler, row: Row, read: Instant, stamp: Instant)
    requires RowFits(h, row, read) && InRange(stamp)
    ensures Unexpired(row, stamp) <==> stamp < h.record.expires
  {
    StringOrderIsTimeOrder(stamp, h.record.expires);
  }

  // Statements of others only remove the row.
  lemma OthersOnlyRemove(sys: System, e: Event, id: Id)
    requires Enabled(sys, e) && (e.Arrive? || e.Act? || e.Cancel? ==> e.id != id)
    requires e.Act? ==> sys.handlers[e.id].record.id == e.id
    ensures id in Next(sys, e).table.rows ==> id in sys.table.rows && Next(sys, e).table.rows[id] == sys.table.rows[id]
  {
    hide Text, Before, FirstRows, Excess, Unexpired, CanAct, NextPc, ActionOf;
  }

  lemma ForeignEventKeepsId(sys: System, e: Event, id: Id)
    requires IdFits(sys, id) && Enabled(sys, e) && (e.Arrive? || e.Act? || e.Cancel? ==> e.id != id)
    requires e.Act? ==> sys.handlers[e.id].record.id == e.id
    ensures IdFits(Next(sys, e), id) && IdMoves(sys, Next(sys, e), id)
  {
    hide Text, Before, EvictAllowed, Unexpired, CanAct, NextPc, ActionOf, LastUpdate, Possible;
    hide PutRow, SetRowMetadata, UpdateRow, AfterSelect, SweepRows, DeleteExpired;
    OthersOnlyRemove(sys, e, id);
  }

  lemma ArrivalKeepsId(sys: System, e: Event)
    requires e.Arrive? || e.Cancel?
    requires IdFits(sys, e.id) && Enabled(sys, e)
    ensures IdFits(Next(sys, e), e.id) && IdMoves(sys, Next(sys, e), e.id)
  {
    hide Text, Before, LastUpdate;
  }

  lemma OwnPutKeepsRow(h: Handler, c: Choice, t: Table, victims: set<Id>, read: Instant, stamp: Instant,
                       delivered: set<Id>)
    requires CanAct(h, c) && InRange(stamp) && read <= stamp && HandlerFits(h.record.id, h, delivered)
    requires h.record.id in t.rows ==> RowFits(h, t.rows[h.record.id], read)
    requires h.pc.Arrived?
    ensures var id, t' := h.record.id, Perform(t, h, ActionOf(h, c), victims, stamp);
            && (id in t'.rows ==> RowFits(h.(pc := NextPc(h, c)), t'.rows[id], stamp))
            && (id in t.rows && id in t'.rows ==>
                  && SameIdentity(t.rows[id], t'.rows[id])
                  && (SameOutcome(t.rows[id], t'.rows[id]) || Edge(t.rows[id].status, t'.rows[id].status)))
            && (id !in t.rows && id in t'.rows ==> h.pc.Arrived?)
  {
    hide Text, Before, Unexpired, FirstRows, Possible, LastUpdate;
  }

  function Rewritten(row: Row, u: Update, stamp: Instant): Row
    requires InRange(stamp)
  {
    row.(status := u.status, code := u.code, message := u.message, updated := Text(stamp))
  }

  lemma UpdateEffect(t: Table, h: Handler, u: Update, read: Instant, stamp: Instant)
    requires h.record.id in t.rows && RowFits(h, t.rows[h.record.id], read) && InRange(stamp)
    ensures var id := h.record.id;
            var row, t' := t.rows[id], UpdateRow(t, id, h.record.owner, u, stamp);
            id in t'.rows
            && t'.rows[id]
               == if stamp < h.record.expires && !Terminal(row.status) then Rewritten(row, u, stamp) else row
  {
    hide Text, Before, Unexpired;
    TestFits(h, t.rows[h.record.id], read, stamp);
  }

  lemma UpdateAddsNothing(t: Table, h: Handler, stamp: Instant)
    requires InRange(stamp)
    ensures forall u :: UpdateRow(t, h.record.id, h.record.owner, u, stamp).rows.Keys == t.rows.Keys
  {
    hide Text, Before, Unexpired;
  }

  // The update of a handler, on its row.
  lemma UpdateFits(h: Handler, c: Choice, row: Row, read: Instant, stamp: Instant, delivered: set<Id>)
    requires CanAct(h, c) && ActionOf(h, c).UpdateAction? && InRange(stamp) && read <= stamp
    requires HandlerFits(h.record.id, h, delivered) && RowFits(h, row, read)
    ensures var u := ActionOf(h, c).update;
            var row' := if stamp < h.record.expires && !Terminal(row.status) then Rewritten(row, u, stamp) else row;
            && RowFits(h.(pc := NextPc(h, c)), row', stamp)
            && SameIdentity(row, row') && (SameOutcome(row, row') || Edge(row.status, row'.status))
  {
    hide Text, InRange;
    if h.pc.Settling? {
      StoredCodeMatchesReply(h.kind, h.pc.ending);
    }
  }

  // Any other step, or new metadata, keeps the outcome.
  lemma OtherFits(h: Handler, c: Choice, row: Row, read: Instant, stamp: Instant)
    requires CanAct(h, c) && !ActionOf(h, c).UpdateAction? && !h.pc.Arrived? && read <= stamp && RowFits(h, row, read)
    ensures forall domains, count :: RowFits(h.(pc := NextPc(h, c)), row.(domains := domains, count := count), stamp)
    ensures RowFits(h.(pc := NextPc(h, c)), row, stamp)
  {
    hide Text, InRange, LastUpdate;
  }

  lemma OwnWriteKeepsRow(h: Handler, c: Choice, t: Table, victims: set<Id>, read: Instant, stamp: Instant,
                         delivered: set<Id>)
    requires CanAct(h, c) && InRange(stamp) && read <= stamp && HandlerFits(h.record.id, h, delivered)
    requires h.record.id in t.rows ==> RowFits(h, t.rows[h.record.id], read)
    requires !h.pc.Arrived?
    ensures var id, t' := h.record.id, Perform(t, h, ActionOf(h, c), victims, stamp);
            && (id in t'.rows ==> RowFits(h.(pc := NextPc(h, c)), t'.rows[id], stamp))
            && (id in t.rows && id in t'.rows ==>
                  && SameIdentity(t.rows[id], t'.rows[id])
                  && (SameOutcome(t.rows[id], t'.rows[id]) || Edge(t.rows[id].status, t'.rows[id].status)))
            && (id !in t.rows && id in t'.rows ==> h.pc.Arrived?)
  {
    hide Text, Before, Unexpired, PutRow, UpdateRow, RowFits, LastUpdate, Possible;
    if h.record.id in t.rows {
      var row, a := t.rows[h.record.id], ActionOf(h, c);
      if a.UpdateAction? {
        UpdateEffect(t, h, a.update, read, stamp);
        UpdateFits(h, c, row, read, stamp, delivered);
      } else {
        OtherFits(h, c, row, read, stamp);
      }
    }
    UpdateAddsNothing(t, h, stamp);
  }

  // What the action of a handler does to its own row.
  lemma OwnActionKeepsRow(h: Handler, c: Choice, t: Table, victims: set<Id>, read: Instant, stamp: Instant,
                          delivered: set<Id>)
    requires CanAct(h, c) && InRange(stamp) && read <= stamp && HandlerFits(h.record.id, h, delivered)
    requires h.record.id in t.rows ==> RowFits(h, t.rows[h.record.id], read)
    ensures var id, t' := h.record.id, Perform(t, h, ActionOf(h, c), victims, stamp);
            && (id in t'.rows ==> RowFits(h.(pc := NextPc(h, c)), t'.rows[id], stamp))
            && (id in t.rows && id in t'.rows ==>
                  && SameIdentity(t.rows[id], t'.rows[id])
                  && (SameOutcome(t.rows[id], t'.rows[id]) || Edge(t.rows[id].status, t'.rows[id].status)))
            && (id !in t.rows && id in t'.rows ==> h.pc.Arrived?)
  {
    hide *;
    if h.pc.Arrived? {
      OwnPutKeepsRow(h, c, t, victims, read, stamp, delivered);
    } else {
      OwnWriteKeepsRow(h, c, t, victims, read, stamp, delivered);
    }
  }

  lemma OwnEventKeepsId(sys: System, e: Event)
    requires e.Act? && IdFits(sys, e.id) && Enabled(sys, e)
    ensures IdFits(Next(sys, e), e.id) && IdMoves(sys, Next(sys, e), e.id)
  {
    hide Perform, RowFits, EvictAllowed, LastUpdate, InRange, ActionOf;
    OwnActionKeepsRow(sys.handlers[e.id], e.choice, sys.table, e.victims, sys.read[e.id], e.stamp, sys.delivered);
  }

  lemma ActorFits(sys: System, e: Event)
    requires Inv(sys) && Enabled(sys, e) && e.Act?
    ensures e.id in sys.handlers && sys.handlers[e.id].record.id == e.id
  {
    assert IdFits(sys, e.id);
  }

  lemma EventKeepsInv(sys: System, e: Event)
    requires Inv(sys) && Enabled(sys, e)
    ensures Inv(Next(sys, e)) && forall id :: IdMoves(sys, Next(sys, e), id)
  {
    hide Enabled, Next, RowFits, IdMoves;
    forall id
      ensures IdFits(Next(sys, e), id) && IdMoves(sys, Next(sys, e), id)
    {
      assert IdFits(sys, id);
      if e.Act? {
        ActorFits(sys, e);
      }
      if e.Act? && e.id == id {
        OwnEventKeepsId(sys, e);
      } else if (e.Arrive? || e.Cancel?) && e.id == id {
        ArrivalKeepsId(sys, e);
      } else {
        ForeignEventKeepsId(sys, e, id);
      }
    }
  }

  // --------------------------------------------------------------------------
  // Whole runs
  // --------------------------------------------------------------------------

  ghost predicate Schedule(sys: System, events: seq<Event>)
    decreases |events|
  {
    events == [] || (Enabled(sys, events[0]) && Schedule(Next(sys, events[0]), events[1..]))
  }

  function After(sys: System, events: seq<Event>): System
    requires Schedule(sys, events)
    decreases |events|
  {
    if events == [] then sys else After(Next(sys, events[0]), events[1..])
  }

  function Start(maxRecords: nat, clock: Instant): System {
    System(EmptyTable(maxRecords), map[], map[], clock, {})
  }

  ghost predicate Gone(sys: System, id: Id) {
    id !in sys.table.rows && id in sys.handlers && !sys.handlers[id].pc.Arrived?
  }

  // A deleted or evicted row never comes back.
  lemma {:induction false} GoneForGood(sys: System, events: seq<Event>, id: Id)
    requires Inv(sys) && Schedule(sys, events) && Gone(sys, id)
    ensures Gone(After(sys, events), id)
    decreases |events|
  {
    hide Inv, Enabled, Next;
    if events != [] {
      EventKeepsInv(sys, events[0]);
      assert IdMoves(sys, Next(sys, events[0]), id);
      GoneForGood(Next(sys, events[0]), events[1..], id);
    }
  }

  lemma StoredHasArrived(sys: System, id: Id)
    requires Inv(sys) && id in sys.table.rows
    ensures id in sys.handlers && !sys.handlers[id].pc.Arrived?
  {
    assert IdFits(sys, id);
  }

  // Between any two moments at which a row exists it has moved along edges of the lifecycle only, and a terminal
  // row has kept its code and message.
  lemma {:induction false} RowsFollowTheLifecycle(sys: System, events: seq<Event>, id: Id)
    requires Inv(sys) && Schedule(sys, events)
    requires id in sys.table.rows && id in After(sys, events).table.rows
    ensures RowFollows(sys.table.rows[id], After(sys, events).table.rows[id])
    decreases |events|
  {
    hide Inv, Enabled, Next;
    if events != [] {
      var sys' := Next(sys, events[0]);
      EventKeepsInv(sys, events[0]);
      assert IdMoves(sys, sys', id);
      StoredHasArrived(sys, id);
      if id !in sys'.table.rows {
        GoneForGood(sys', events[1..], id);
        assert false;
      } else {
        RowsFollowTheLifecycle(sys', events[1..], id);
      }
    }
  }

  lemma {:induction false} InvAlways(sys: System, events: seq<Event>)
    requires Inv(sys) && Schedule(sys, events)
    ensures Inv(After(sys, events)) && sys.clock <= After(sys, events).clock
    decreases |events|
  {
    hide Inv, Enabled;
    if events != [] {
      EventKeepsInv(sys, events[0]);
      InvAlways(Next(sys, events[0]), events[1..]);
    }
  }

  lemma ReadIsKnown(sys: System, id: Id)
    requires Inv(sys) && id in sys.handlers
    ensures id in sys.read && sys.read[id] <= sys.clock
  {
    assert IdFits(sys, id);
  }

  // A handler that has replied does not move any more.
  lemma {:induction false} FinishedStays(sys: System, events: seq<Event>, id: Id)
    requires Inv(sys) && Schedule(sys, events) && id in sys.handlers && sys.handlers[id].pc.Finished?
    ensures var end := After(sys, events);
            && id in end.handlers && end.handlers[id] == sys.handlers[id]
            && id in sys.read && id in end.read && end.read[id] == sys.read[id]
    decreases |events|
  {
    hide Inv, Enabled, Next;
    ReadIsKnown(sys, id);
    if events != [] {
      EventKeepsInv(sys, events[0]);
      assert IdMoves(sys, Next(sys, events[0]), id);
      FinishedStays(Next(sys, events[0]), events[1..], id);
    }
  }

  // A lookup sees SmtpAccepted only after the SMTP server accepted that message.
  lemma AcceptedOnlyAfterDelivery(maxRecords: nat, clock: Instant, events: seq<Event>, id: Id, key: KeyId,
                                  stamp: Instant)
    requires Schedule(Start(maxRecords, clock), events) && InRange(stamp)
    ensures var sys := After(Start(maxRecords, clock), events);
            var seen := SelectRow(sys.table, id, key, stamp);
            seen.Some? && seen.value.status.SmtpAccepted? ==> id in sys.delivered
  {
    hide Schedule, After, Text, Before;
    InvAlways(Start(maxRecords, clock), events);
    var sys := After(Start(maxRecords, clock), events);
    assert IdFits(sys, id);
    if id in sys.table.rows && sys.handlers[id].pc.Finished? {
      StoredCodeMatchesReply(sys.handlers[id].kind, sys.handlers[id].pc.ending);
    }
  }

  // Once a handler has replied, whatever a lookup begun afterwards still finds is terminal and says what the
  // client was told, with the same one exception as in memory.
  lemma RowAgreesWithReply(sys: System, events: seq<Event>, id: Id, stamp: Instant)
    requires Inv(sys) && id in sys.handlers && sys.handlers[id].pc.Finished?
    requires Schedule(sys, events) && sys.clock <= stamp && InRange(stamp)
    ensures var h := sys.handlers[id];
            var reply, seen := ReplyOf(h.kind, h.pc.ending),
              SelectRow(After(sys, events).table, id, h.record.owner, stamp);
            seen.Some? ==>
              && Terminal(seen.value.status)
              && (seen.value.status.SmtpAccepted? <==> reply.Accepted?)
              && (seen.value.code == (match reply case Accepted => None case Refused(c) => Some(c))
                  <==> !(h.kind.Single? && h.pc.ending == TurnedAway(Validation, FeatureDisabledError)))
  {
    hide Schedule, After, Text, Before, LastUpdate, ReplyOf, Unexpired, Enabled, Next;
    var h, end := sys.handlers[id], After(sys, events);
    assert IdFits(sys, id);
    StoredCodeMatchesReply(h.kind, h.pc.ending);
    InvAlways(sys, events);
    FinishedStays(sys, events, id);
    assert IdFits(end, id);
    if id in end.table.rows {
      TestFits(h, end.table.rows[id], end.read[id], stamp);
      if id in sys.table.rows {
        RowsFollowTheLifecycle(sys, events, id);
      } else {
        GoneForGood(sys, events, id);
        assert false;
      }
    }
  }
}
