// The Redis status store (status_redis.rs) under the handlers' single-writer discipline.
//
// A store call is a read-modify-write of one key made of separate Redis commands; between them
// other handlers and readers run. Any command may fail cleanly, and Redis may drop any key.
module RedisStores {
  import opened Prelude
  import opened Statuses
  import opened Handlers
  import MemoryStores

  // A key with the instant at which Redis forgets it.
  datatype Entry = Entry(value: Record, deadline: Instant)

  type Keyspace = map<Id, Entry>

  // --------------------------------------------------------------------------
  // Redis commands
  // --------------------------------------------------------------------------

  function Lookup(keys: Keyspace, id: Id, now: Instant): Option<Record> {
    if id in keys && now < keys[id].deadline then Some(keys[id].value) else None
  }

  // SET EX; an expiry of 0 seconds is an error.
  function SetEx(keys: Keyspace, id: Id, value: Record, seconds: nat, now: Instant): Keyspace {
    if seconds == 0 then keys else keys[id := Entry(value, now + seconds * NANOS_PER_SECOND)]
  }

  // Whole seconds until expiry, truncated towards zero, but at least one.
  function RemainingSeconds(r: Record, now: Instant): nat {
    Max(if r.expires >= now then (r.expires - now) / NANOS_PER_SECOND else -((now - r.expires) / NANOS_PER_SECOND), 1)
  }

  // --------------------------------------------------------------------------
  // The modify step of each call
  // --------------------------------------------------------------------------

  // The record to write back, or nothing when a guard stops the call.
  function Modified(found: Option<Record>, owner: KeyId, action: Action, now: Instant): Option<Record> {
    if found.None? || found.value.owner != owner || Expired(found.value, now) then None
    else
      match action
      case MetadataAction(domains, count) => Some(found.value.(domains := domains, count := count, updated := now))
      case UpdateAction(u) =>
        if Terminal(found.value.status) then None else Some(MemoryStores.Applied(found.value, u, now))
      case _ => None
  }

  // --------------------------------------------------------------------------
  // The system
  // --------------------------------------------------------------------------

  // Where a handler is inside a store call, and the choice it acts on.
  datatype Call =
    | Idle
    | CheckingKey(choice: Choice, ttlSeconds: nat)            // EXISTS comes next; the ttl is already read
    | Inserting(choice: Choice, ttlSeconds: nat)              // SET EX of the new record comes next
    | Fetching(choice: Choice)                                // GET comes next
    | Writing(choice: Choice, value: Record, since: Instant)  // SET EX of the modified record comes next

  datatype Worker = Worker(handler: Handler, call: Call)

  // `readers` met an expired record and will delete its key. `written` is history: the last value
  // written under each id.
  datatype System = System(
    keys: Keyspace, workers: map<Id, Worker>, readers: map<nat, Id>, clock: Instant, ttlSeconds: nat,
    written: map<Id, Record>)

  datatype Event =
    | Arrive(id: Id, kind: Kind, owner: KeyId, ttlSeconds: nat)
    | Act(id: Id, choice: Choice)
    | Command(id: Id, ok: bool, stamp: Instant)
    | NoConnection(id: Id)
    | Cancel(id: Id)
    | Read(thread: nat, id: Id, key: KeyId, ok: bool)
    | Delete(thread: nat, ok: bool)
    | Drop(id: Id)
    | Reload(ttlSeconds: nat)
    | Tick(nanos: nat)

  predicate Busy(w: Worker) {
    !w.call.Idle? && CanAct(w.handler, w.call.choice)
  }

  predicate Enabled(sys: System, e: Event) {
    match e
    case Arrive(id, _, _, _) => id !in sys.workers
    case Act(id, c) => id in sys.workers && sys.workers[id].call.Idle? && CanAct(sys.workers[id].handler, c)
    case Command(id, _, stamp) =>
      && id in sys.workers && Busy(sys.workers[id]) && stamp <= sys.clock
      && (sys.workers[id].call.Writing? ==> sys.workers[id].call.since <= stamp)
    case NoConnection(id) =>
      id in sys.workers && Busy(sys.workers[id])
        && (sys.workers[id].call.CheckingKey? || sys.workers[id].call.Fetching?)
    case Cancel(id) => id in sys.workers && sys.workers[id].call.Idle? && !sys.workers[id].handler.pc.Finished?
    case Read(t, _, _, _) => t !in sys.readers
    case Delete(t, _) => t in sys.readers
    case _ => true
  }

  // The call is over, whether it took effect or not.
  function Done(w: Worker, c: Choice): Worker
    requires CanAct(w.handler, c)
  {
    Worker(w.handler.(pc := NextPc(w.handler, c)), Idle)
  }

  function Begun(w: Worker, c: Choice, ttlSeconds: nat): Worker
    requires CanAct(w.handler, c)
  {
    match ActionOf(w.handler, c)
    case NoAction => Done(w, c)
    case PutAction => w.(call := CheckingKey(c, ttlSeconds))
    case _ => w.(call := Fetching(c))
  }

  function Store(sys: System, id: Id, value: Record, seconds: nat): System {
    if seconds == 0 then sys
    else sys.(keys := SetEx(sys.keys, id, value, seconds, sys.clock), written := sys.written[id := value])
  }

  // The next Redis command of a call.
  function RunCommand(sys: System, id: Id, ok: bool, stamp: Instant): System
    requires id in sys.workers && Busy(sys.workers[id])
  {
    var w := sys.workers[id];
    var done := sys.(workers := sys.workers[id := Done(w, w.call.choice)]);
    match w.call
    case CheckingKey(c, ttl) =>
      // A failing EXISTS counts as false.
      if ok && Lookup(sys.keys, id, sys.clock).Some? then done
      else sys.(workers := sys.workers[id := w.(call := Inserting(c, ttl))])
    case Inserting(c, ttl) => if ok then Store(done, id, w.handler.record, ttl) else done
    case Fetching(c) =>
      // A failing GET ends the call.
      var modified :=
        if ok
        then Modified(Lookup(sys.keys, id, sys.clock), w.handler.record.owner, ActionOf(w.handler, c), sys.clock)
        else None;
      if modified.Some? then sys.(workers := sys.workers[id := w.(call := Writing(c, modified.value, sys.clock))])
      else done
    case Writing(c, value, _) => if ok then Store(done, id, value, RemainingSeconds(value, stamp)) else done
  }

  datatype ReadOutcome = Returned(found: Option<Record>) | MustDelete

  // What the GET of a lookup leads to.
  function ReadFinds(sys: System, id: Id, key: KeyId): ReadOutcome {
    var found := Lookup(sys.keys, id, sys.clock);
    if found.None? || found.value.owner != key then Returned(None)
    else if Expired(found.value, sys.clock) then MustDelete
    else Returned(found)
  }

  function Next(sys: System, e: Event): System
    requires Enabled(sys, e)
  {
    match e
    case Arrive(id, kind, owner, ttl) =>
      sys.(workers := sys.workers[id := Worker(Handler(kind, NewReceived(id, owner, ttl, sys.clock), Arrived), Idle)])
    case Act(id, c) => sys.(workers := sys.workers[id := Begun(sys.workers[id], c, sys.ttlSeconds)])
    case Command(id, ok, stamp) => RunCommand(sys, id, ok, stamp)
    case NoConnection(id) => sys.(workers := sys.workers[id := Done(sys.workers[id], sys.workers[id].call.choice)])
    case Cancel(id) =>
      var w := sys.workers[id];
      sys.(workers := sys.workers[id := w.(handler := w.handler.(pc := Cancelled))])
    case Read(t, id, key, ok) =>
      if ok && ReadFinds(sys, id, key).MustDelete? then sys.(readers := sys.readers[t := id]) else sys
    case Delete(t, ok) =>
      var rest := sys.(readers := sys.readers - {t});
      if ok then rest.(keys := sys.keys - {sys.readers[t]}) else rest
    case Drop(id) => sys.(keys := sys.keys - {id})
    case Reload(ttl) => sys.(ttlSeconds := ttl)
    case Tick(n) => sys.(clock := sys.clock + n)
  }

  // --------------------------------------------------------------------------
  // How long a key lives
  // --------------------------------------------------------------------------

  lemma WholeAndRest(n: nat)
    ensures n == n / NANOS_PER_SECOND * NANOS_PER_SECOND + n % NANOS_PER_SECOND
  {
  }

  // The remaining lifetime is computed at `stamp` and counted by Redis from the moment SET EX arrives. The key
  // outlives its record unless at least a second was left at `stamp` and the delay since then fits
  // into the part of a second that was rounded off.
  lemma UpdatedKeyLifetime(sys: System, id: Id, stamp: Instant)
    requires Enabled(sys, Command(id, true, stamp)) && sys.workers[id].call.Writing?
    ensures var value, entry := sys.workers[id].call.value, Next(sys, Command(id, true, stamp)).keys[id];
            && entry == Entry(value, sys.clock + RemainingSeconds(value, stamp) * NANOS_PER_SECOND)
            && (entry.deadline <= value.expires <==>
                  && stamp + NANOS_PER_SECOND <= value.expires
                  && sys.clock - stamp <= (value.expires - stamp) % NANOS_PER_SECOND)
  {
    var value := sys.workers[id].call.value;
    if stamp + NANOS_PER_SECOND <= value.expires {
      WholeAndRest(value.expires - stamp);
    }
  }

  // The key of a new record outlives it unless the delay since the record was made is covered by a ttl that
  // was shortened in between: with an unchanged ttl, as soon as any time has passed.
  lemma InsertedKeyLifetime(sys: System, id: Id, stamp: Instant, ttlAtArrival: nat)
    requires Enabled(sys, Command(id, true, stamp)) && sys.workers[id].call.Inserting?
    requires sys.workers[id].call.ttlSeconds > 0
    requires var r := sys.workers[id].handler.record; r.expires == r.created + ttlAtArrival * NANOS_PER_SECOND
    ensures var r, ttl := sys.workers[id].handler.record, sys.workers[id].call.ttlSeconds;
            var entry := Next(sys, Command(id, true, stamp)).keys[id];
            && entry == Entry(r, sys.clock + ttl * NANOS_PER_SECOND)
            && (entry.deadline <= r.expires <==> sys.clock - r.created <= (ttlAtArrival - ttl) * NANOS_PER_SECOND)
            && (ttl == ttlAtArrival ==> (entry.deadline <= r.expires <==> sys.clock <= r.created))
  {
  }

  // --------------------------------------------------------------------------
  // The invariant
  // --------------------------------------------------------------------------

  // What may be stored while its handler is at `pc`. A failed write leaves an earlier status.
  ghost predicate StatusFits(kind: Kind, pc: Pc, r: Record) {
    match pc
    case Arrived => false
    case Recorded => r.status.Received?
    case Validated => r.status.Received?
    case Described => r.status.Received?
    case Prepared => r.status.Received?
    case InFlight => r.status.Received? || r.status.SubmissionStarted?
    case Settling(e) => r.status.Received? || (r.status.SubmissionStarted? && !e.TurnedAway?)
    case Finished(e) =>
      || r.status.Received?
      || (r.status.SubmissionStarted? && !e.TurnedAway?)
      || (r.status == LastUpdate(kind, e).status && r.code == LastUpdate(kind, e).code)
    case Cancelled => !Terminal(r.status)
  }

  ghost predicate SameIdentity(h: Handler, r: Record) {
    r.id == h.record.id && r.owner == h.record.owner && r.created == h.record.created && r.expires == h.record.expires
  }

  ghost predicate CallFits(w: Worker, written: Option<Record>) {
    match w.call
    case Idle => true
    case CheckingKey(c, _) => CanAct(w.handler, c) && w.handler.pc.Arrived?
    case Inserting(c, _) => CanAct(w.handler, c) && w.handler.pc.Arrived?
    case Fetching(c) => CanAct(w.handler, c) && !w.handler.pc.Arrived?
    case Writing(c, value, _) =>
      && CanAct(w.handler, c) && !w.handler.pc.Arrived?
      && SameIdentity(w.handler, value) && StatusFits(w.handler.kind, NextPc(w.handler, c), value)
      && written.Some? && Follows(written.value, value)
  }

  ghost predicate WorkerFits(w: Worker, id: Id, written: Option<Record>) {
    && w.handler.record.id == id && w.handler.record.status.Received?
    && (w.handler.pc.Settling? || w.handler.pc.Finished? ==> Possible(w.handler.kind, w.handler.pc.ending))
    && (written.Some? ==>
          SameIdentity(w.handler, written.value) && StatusFits(w.handler.kind, w.handler.pc, written.value))
    && CallFits(w, written)
  }

  function LastWritten(sys: System, id: Id): Option<Record> {
    if id in sys.written then Some(sys.written[id]) else None
  }

  // All the keyspace can hold under an id is the last value written there.
  ghost predicate IdFits(sys: System, id: Id) {
    && (id in sys.keys ==> id in sys.written && sys.keys[id].value == sys.written[id])
    && (id in sys.written ==> id in sys.workers)
    && (id in sys.workers ==> WorkerFits(sys.workers[id], id, LastWritten(sys, id)))
  }

  ghost predicate Inv(sys: System) {
    forall id :: IdFits(sys, id)
  }

  // What a step may do to the last value written under an id.
  ghost predicate WriteFollows(sys: System, sys': System, id: Id) {
    id in sys.written ==> id in sys'.written && Follows(sys.written[id], sys'.written[id])
  }

  // Fetching and modifying gives a value that may follow the one it was fetched from.
  lemma ModifiedFits(w: Worker, id: Id, c: Choice, found: Record, now: Instant)
    requires WorkerFits(w, id, Some(found)) && w.call == Fetching(c)
    ensures var m := Modified(Some(found), w.handler.record.owner, ActionOf(w.handler, c), now);
            m.Some? ==> WorkerFits(w.(call := Writing(c, m.value, now)), id, Some(found))
  {
    if w.handler.pc.Settling? {
      StoredCodeMatchesReply(w.handler.kind, w.handler.pc.ending);
    }
  }

  // When nothing is written the handler moves on, and what is stored still fits.
  lemma DoneFits(w: Worker, id: Id, c: Choice, written: Option<Record>)
    requires WorkerFits(w, id, written) && CanAct(w.handler, c)
    ensures WorkerFits(Done(w, c), id, written)
  {
  }

  lemma CommandKeepsId(sys: System, id: Id, ok: bool, stamp: Instant)
    requires IdFits(sys, id) && Enabled(sys, Command(id, ok, stamp))
    ensures var sys' := Next(sys, Command(id, ok, stamp)); IdFits(sys', id) && WriteFollows(sys, sys', id)
  {
    var w := sys.workers[id];
    DoneFits(w, id, w.call.choice, LastWritten(sys, id));
    if w.call.Fetching? && Lookup(sys.keys, id, sys.clock).Some? {
      ModifiedFits(w, id, w.call.choice, sys.written[id], sys.clock);
    }
  }

  // Steps of the handler itself, outside its commands.
  lemma OwnStepKeepsId(sys: System, e: Event, id: Id)
    requires IdFits(sys, id) && Enabled(sys, e)
    requires e == Cancel(id) || (e.Act? && e.id == id) || e == NoConnection(id)
    ensures IdFits(Next(sys, e), id) && WriteFollows(sys, Next(sys, e), id)
  {
    hide RunCommand, Possible;
    if !e.Cancel? {
      var c := if e.Act? then e.choice else sys.workers[id].call.choice;
      DoneFits(sys.workers[id], id, c, LastWritten(sys, id));
    }
  }

  lemma ArrivalKeepsId(sys: System, e: Event, id: Id)
    requires IdFits(sys, id) && Enabled(sys, e) && e.Arrive? && e.id == id
    ensures IdFits(Next(sys, e), id) && WriteFollows(sys, Next(sys, e), id)
  {
    hide RunCommand, Possible;
  }

  // Readers, dropped keys and other handlers can only remove the key.
  lemma ForeignStepKeepsId(sys: System, e: Event, id: Id)
    requires IdFits(sys, id) && Enabled(sys, e)
    requires e.Arrive? || e.Act? || e.Command? || e.NoConnection? || e.Cancel? ==> e.id != id
    ensures IdFits(Next(sys, e), id) && WriteFollows(sys, Next(sys, e), id)
  {
    hide WorkerFits, RemainingSeconds, Modified, CanAct, NextPc, ActionOf;
    var sys' := Next(sys, e);
    assert id in sys'.keys ==> id in sys.keys && sys'.keys[id] == sys.keys[id];
    assert id in sys'.workers <==> id in sys.workers;
    assert LastWritten(sys', id) == LastWritten(sys, id);
  }

  lemma EventKeepsId(sys: System, e: Event, id: Id)
    requires IdFits(sys, id) && Enabled(sys, e)
    ensures IdFits(Next(sys, e), id) && WriteFollows(sys, Next(sys, e), id)
  {
    hide IdFits, WriteFollows, Next;
    if e.Command? && e.id == id {
      CommandKeepsId(sys, id, e.ok, e.stamp);
    } else if e == Cancel(id) || (e.Act? && e.id == id) || e == NoConnection(id) {
      OwnStepKeepsId(sys, e, id);
    } else if e.Arrive? && e.id == id {
      ArrivalKeepsId(sys, e, id);
    } else {
      ForeignStepKeepsId(sys, e, id);
    }
  }

  lemma EventKeepsInv(sys: System, e: Event)
    requires Inv(sys) && Enabled(sys, e)
    ensures Inv(Next(sys, e)) && forall id :: WriteFollows(sys, Next(sys, e), id)
  {
    forall id
      ensures IdFits(Next(sys, e), id) && WriteFollows(sys, Next(sys, e), id)
    {
      assert IdFits(sys, id);
      EventKeepsId(sys, e, id);
    }
  }

  // --------------------------------------------------------------------------
  // Whole runs
  // --------------------------------------------------------------------------

  ghost predicate Schedule(sys: System, events: seq<Event>)
    decreases |events|
  {
    events == [] || (Enabled(sys, events[0]) && Schedule(Next(sys, events[0]), events[1..]))
  }

  function After(sys: System, events: seq<Event>): System
    requires Schedule(sys, events)
    decreases |events|
  {
    if events == [] then sys else After(Next(sys, events[0]), events[1..])
  }

  lemma {:induction false} WritesFollow(sys: System, events: seq<Event>, id: Id)
    requires Inv(sys) && Schedule(sys, events)
    ensures Inv(After(sys, events)) && WriteFollows(sys, After(sys, events), id)
    decreases |events|
  {
    if events != [] {
      var sys' := Next(sys, events[0]);
      EventKeepsInv(sys, events[0]);
      assert WriteFollows(sys, sys', id);
      WritesFollow(sys', events[1..], id);
      if id in sys.written {
        FollowsIsTransitive(sys.written[id], sys'.written[id], After(sys, events).written[id]);
      }
    }
  }

  function Start(clock: Instant, ttlSeconds: nat): System {
    System(map[], map[], map[], clock, ttlSeconds, map[])
  }

  // The main result from the beginning: no schedule ever lets a record found at one time be followed by one it
  // does not lead to, and every record found is its handler's own, unexpired.
  lemma FromTheStart(clock: Instant, ttlSeconds: nat, events: seq<Event>, more: seq<Event>, id: Id, key: KeyId)
    requires Schedule(Start(clock, ttlSeconds), events) && Schedule(After(Start(clock, ttlSeconds), events), more)
    ensures var early := After(Start(clock, ttlSeconds), events);
            var late := After(early, more);
            var a, b := ReadFinds(early, id, key), ReadFinds(late, id, key);
            a.Returned? && a.found.Some? && b.Returned? && b.found.Some? ==>
              && Follows(a.found.value, b.found.value)
              && b.found.value.owner == key && late.clock <= a.found.value.expires
  {
    WritesFollow(Start(clock, ttlSeconds), events, id);
    var early := After(Start(clock, ttlSeconds), events);
    WritesFollow(early, more, id);
    assert IdFits(early, id) && IdFits(After(early, more), id);
  }

  // Whatever the interleaving, the failures and the dropped keys: a key found later, even one that a
  // late SET EX has recreated, holds a record that follows the earlier one. A terminal status
  // is never overwritten, and owner, creation and expiry never change.
  lemma KeysFollowTheLifecycle(sys: System, events: seq<Event>, id: Id)
    requires Inv(sys) && Schedule(sys, events)
    requires id in sys.keys && id in After(sys, events).keys
    ensures Follows(sys.keys[id].value, After(sys, events).keys[id].value)
  {
    WritesFollow(sys, events, id);
    assert IdFits(sys, id) && IdFits(After(sys, events), id);
  }

  // A lookup never returns a record of another owner or one past its original expiry.
  lemma LookupsRespectExpiry(sys: System, events: seq<Event>, id: Id, key: KeyId)
    requires Inv(sys) && Schedule(sys, events)
    ensures var end := After(sys, events);
            var r := ReadFinds(end, id, key);
            r.Returned? && r.found.Some? ==>
              && id in end.workers
              && r.found.value.owner == key == end.workers[id].handler.record.owner
              && end.clock <= r.found.value.expires == end.workers[id].handler.record.expires
  {
    WritesFollow(sys, events, id);
    assert IdFits(After(sys, events), id);
  }

  // A record found after its handler replied never contradicts the reply: a terminal one carries
  // the handler's own ending. A failed write may leave it short of the end.
  lemma FoundAgreesWithReply(sys: System, id: Id)
    requires Inv(sys) && id in sys.workers && sys.workers[id].handler.pc.Finished?
    ensures var h := sys.workers[id].handler;
            var seen := ReadFinds(sys, id, h.record.owner);
            seen.Returned? && seen.found.Some? && Terminal(seen.found.value.status) ==>
              && (seen.found.value.status.SmtpAccepted? <==> ReplyOf(h.kind, h.pc.ending).Accepted?)
              && seen.found.value.code == LastUpdate(h.kind, h.pc.ending).code
  {
    var h := sys.workers[id].handler;
    assert IdFits(sys, id);
    StoredCodeMatchesReply(h.kind, h.pc.ending);
  }

  // --------------------------------------------------------------------------
  // Why one writer per id is needed
  // --------------------------------------------------------------------------

  datatype Writer = First | Second

  // The commands of two updates of one id by different handlers.
  datatype PairCommand = Fetch(writer: Writer, at: Instant) | Write(writer: Writer, stamp: Instant, at: Instant)

  // The keyspace, and what each writer is about to write back.
  datatype Pair = Pair(keys: Keyspace, held: map<Writer, Record>)

  function Execute(p: Pair, id: Id, owner: KeyId, updates: Writer -> Update, c: PairCommand): Pair {
    match c
    case Fetch(w, at) =>
      var m := Modified(Lookup(p.keys, id, at), owner, UpdateAction(updates(w)), at);
      if m.Some? then p.(held := p.held[w := m.value]) else p.(held := p.held - {w})
    case Write(w, stamp, at) =>
      if w !in p.held then p
      else p.(keys := SetEx(p.keys, id, p.held[w], RemainingSeconds(p.held[w], stamp), at))
  }

  function ExecuteAll(p: Pair, id: Id, owner: KeyId, updates: Writer -> Update, cs: seq<PairCommand>): Pair
    decreases |cs|
  {
    if cs == [] then p else ExecuteAll(Execute(p, id, owner, updates, cs[0]), id, owner, updates, cs[1..])
  }

  lemma ExecuteTwo(p: Pair, id: Id, owner: KeyId, updates: Writer -> Update, a: PairCommand, b: PairCommand)
    ensures ExecuteAll(p, id, owner, updates, [a, b])
      == Execute(Execute(p, id, owner, updates, a), id, owner, updates, b)
  {
    hide Execute;
    assert [a, b][1..] == [b] && [b][1..] == [];
    assert ExecuteAll(Execute(p, id, owner, updates, a), id, owner, updates, [b])
        == Execute(Execute(p, id, owner, updates, a), id, owner, updates, b);
  }

  lemma ExecuteFour(p: Pair, id: Id, owner: KeyId, updates: Writer -> Update,
                    a: PairCommand, b: PairCommand, c: PairCommand, d: PairCommand)
    ensures ExecuteAll(p, id, owner, updates, [a, b, c, d])
            == (var q := Execute(Execute(p, id, owner, updates, a), id, owner, updates, b);
                Execute(Execute(q, id, owner, updates, c), id, owner, updates, d))
  {
    hide Execute;
    assert [a, b, c, d][1..] == [b, c, d] && [b, c, d][1..] == [c, d];
    ExecuteTwo(Execute(Execute(p, id, owner, updates, a), id, owner, updates, b), id, owner, updates, c, d);
  }

  // A terminal status written by the first writer is overwritten if the second fetched before that write, in either
  // order of the fetches and at whatever times, and is left alone if it fetched afterwards.
  lemma TwoWritersOverwrite(keys: Keyspace, id: Id, owner: KeyId, updates: Writer -> Update,
                            f1: Instant, f2: Instant, s1: Instant, w1: Instant, s2: Instant, w2: Instant)
    requires id in keys && keys[id].value.owner == owner && !Terminal(keys[id].value.status)
    requires f1 < keys[id].deadline && f2 < keys[id].deadline
    requires f1 <= keys[id].value.expires && f2 <= keys[id].value.expires
    requires Terminal(updates(First).status)
    ensures var p := Pair(keys, map[]);
            var f, g, w, x := Fetch(First, f1), Fetch(Second, f2), Write(First, s1, w1), Write(Second, s2, w2);
            var written := ExecuteAll(p, id, owner, updates, [f, w]).keys;
            var early := ExecuteAll(p, id, owner, updates, [f, g, w, x]).keys;
            && Lookup(written, id, w1).Some? && Lookup(written, id, w1).value.status == updates(First).status
            && early == ExecuteAll(p, id, owner, updates, [g, f, w, x]).keys
            && Lookup(early, id, w2).Some? && Lookup(early, id, w2).value.status == updates(Second).status
            && forall late: Instant :: ExecuteAll(p, id, owner, updates, [f, w, Fetch(Second, late), x]).keys == written
  {
    var p := Pair(keys, map[]);
    var f, g, w, x := Fetch(First, f1), Fetch(Second, f2), Write(First, s1, w1), Write(Second, s2, w2);
    ExecuteTwo(p, id, owner, updates, f, w);
    ExecuteFour(p, id, owner, updates, f, g, w, x);
    ExecuteFour(p, id, owner, updates, g, f, w, x);
    forall late: Instant
      ensures ExecuteAll(p, id, owner, updates, [f, w, Fetch(Second, late), x]).keys
        == ExecuteAll(p, id, owner, updates, [f, w]).keys
    {
      ExecuteFour(p, id, owner, updates, f, w, Fetch(Second, late), x);
    }
  }

  // --------------------------------------------------------------------------
  // The mutable store
  // --------------------------------------------------------------------------

  // What the network does to one call: whether a connection is had, and whether its two commands succeed.
  datatype Luck = Luck(connected: bool, first: bool, second: bool)

  // A whole call made without interference, as a value.
  function Inserted(keys: Keyspace, record: Record, ttlSeconds: nat, now: Instant, luck: Luck): Keyspace {
    if !luck.connected || (luck.first && Lookup(keys, record.id, now).Some?) || !luck.second then keys
    else SetEx(keys, record.id, record, ttlSeconds, now)
  }

  function Rewritten(keys: Keyspace, id: Id, owner: KeyId, action: Action, now: Instant, luck: Luck): Keyspace {
    var modified := if luck.connected && luck.first then Modified(Lookup(keys, id, now), owner, action, now) else None;
    if modified.None? || !luck.second then keys
    else SetEx(keys, id, modified.value, RemainingSeconds(modified.value, now), now)
  }

  function Performed(keys: Keyspace, record: Record, action: Action, ttlSeconds: nat, now: Instant,
                     luck: Luck): Keyspace {
    match action
    case NoAction => keys
    case PutAction => Inserted(keys, record, ttlSeconds, now, luck)
    case _ => Rewritten(keys, record.id, record.owner, action, now, luck)
  }

  lemma {:induction false} Extend(sys: System, events: seq<Event>, e: Event)
    requires Schedule(sys, events) && Enabled(After(sys, events), e)
    ensures Schedule(sys, events + [e]) && After(sys, events + [e]) == Next(After(sys, events), e)
    decreases |events|
  {
    if events == [] {
      assert Schedule(Next(sys, e), []);
      assert [e][1..] == [];
    } else {
      Extend(Next(sys, events[0]), events[1..], e);
      assert (events + [e])[1..] == events[1..] + [e];
    }
  }

  // The record is put at time zero, in one go.
  lemma PutIsReached() returns (events: seq<Event>)
    ensures Schedule(Start(0, 10), events)
    ensures var record := NewReceived("a", "k", 10, 0);
            After(Start(0, 10), events)
            == Start(0, 10).(keys := map["a" := Entry(record, 10 * NANOS_PER_SECOND)],
                             workers := map["a" := Worker(Handler(Single, record, Recorded), Idle)],
                             written := map["a" := record])
  {
    var record := NewReceived("a", "k", 10, 0);
    var arrive, act, command := Arrive("a", Single, "k", 10), Act("a", Proceed), Command("a", true, 0);
    Extend(Start(0, 10), [], arrive);
    Extend(Start(0, 10), [arrive], act);
    Extend(Start(0, 10), [arrive] + [act], command);
    events := [arrive] + [act] + [command];
    var h := Handler(Single, record, Arrived);
    assert After(Start(0, 10), events) == Start(0, 10).(workers := map["a" := Worker(h, Inserting(Proceed, 10))]);
    Extend(Start(0, 10), events, command);
    events := events + [command];
  }

  // A rejecting update of it has been fetched and not yet written, still at time zero.
  lemma WriteIsPending() returns (events: seq<Event>, h: Handler, value: Record)
    ensures Schedule(Start(0, 10), events)
    ensures CanAct(h, Proceed) && value.expires == 10 * NANOS_PER_SECOND
    ensures After(Start(0, 10), events).workers == map["a" := Worker(h, Writing(Proceed, value, 0))]
    ensures After(Start(0, 10), events).clock == 0
  {
    hide Schedule, After, LastUpdate;
    events := PutIsReached();
    var record := NewReceived("a", "k", 10, 0);
    var turn, act, get := Act("a", TurnAway(BadRequestError)), Act("a", Proceed), Command("a", true, 0);
    h := Handler(Single, record, Settling(StageOf(BadRequestError)));
    value := Modified(Some(record), "k", ActionOf(h, Proceed), 0).value;
    Extend(Start(0, 10), events, turn);
    Extend(Start(0, 10), events + [turn], act);
    assert After(Start(0, 10), events + [turn] + [act]).workers == map["a" := Worker(h, Fetching(Proceed))];
    Extend(Start(0, 10), events + [turn] + [act], get);
    events := events + [turn] + [act] + [get];
  }

  lemma RemainingIsPositive(r: Record, now: Instant)
    ensures RemainingSeconds(r, now) >= 1
  {
  }

  // A reachable key that outlives its record although more than two seconds were left at both readings of the
  // clock: ten seconds of life, an update stamped at seven seconds that arrives half a second later.
  lemma LateWriteOutlives() returns (events: seq<Event>)
    ensures Schedule(Start(0, 10), events)
    ensures var end := After(Start(0, 10), events);
            && "a" in end.keys && end.keys["a"].value.expires < end.keys["a"].deadline
            && end.clock + 2 * NANOS_PER_SECOND < end.keys["a"].value.expires
  {
    hide Schedule, After, CanAct, ActionOf, RemainingSeconds;
    var half := NANOS_PER_SECOND / 2;
    var h, value;
    events, h, value := WriteIsPending();
    Extend(Start(0, 10), events, Tick(15 * half));
    events := events + [Tick(15 * half)];
    Extend(Start(0, 10), events, Command("a", true, 14 * half));
    UpdatedKeyLifetime(After(Start(0, 10), events), "a", 14 * half);
    RemainingIsPositive(value, 14 * half);
    events := events + [Command("a", true, 14 * half)];
  }

  // The state after the commands of a call left alone.
  function RunCall(sys: System, id: Id, c: Choice, luck: Luck): System
    requires id in sys.workers && sys.workers[id].call.Idle? && CanAct(sys.workers[id].handler, c)
  {
    var one := Next(sys, Act(id, c));
    if one.workers[id].call.Idle? then one
    else if !luck.connected then Next(one, NoConnection(id))
    else
      var two := Next(one, Command(id, luck.first, sys.clock));
      if two.workers[id].call.Idle? then two else Next(two, Command(id, luck.second, sys.clock))
  }

  lemma NoTtlNoKey(keys: Keyspace, id: Id, value: Record, now: Instant)
    ensures SetEx(keys, id, value, 0, now) == keys
  {
  }

  lemma PutPerforms(sys: System, id: Id, c: Choice, luck: Luck)
    requires id in sys.workers && sys.workers[id].call.Idle? && CanAct(sys.workers[id].handler, c)
    requires sys.workers[id].handler.record.id == id
    requires ActionOf(sys.workers[id].handler, c).PutAction? || ActionOf(sys.workers[id].handler, c).NoAction?
    ensures var h := sys.workers[id].handler;
            && RunCall(sys, id, c, luck).keys == Performed(sys.keys, h.record, ActionOf(h, c), sys.ttlSeconds,
                                                           sys.clock, luck)
            && RunCall(sys, id, c, luck).workers == sys.workers[id := Done(sys.workers[id], c)]
  {
    hide NextPc, CanAct, ActionOf, SetEx, Lookup;
    var h := sys.workers[id].handler;
    if ActionOf(h, c).PutAction? {
      var one := Next(sys, Act(id, c));
      assert one == sys.(workers := sys.workers[id := Worker(h, CheckingKey(c, sys.ttlSeconds))]);
      if luck.connected && !(luck.first && Lookup(sys.keys, id, sys.clock).Some?) {
        var two := Next(one, Command(id, luck.first, sys.clock));
        assert two == sys.(workers := sys.workers[id := Worker(h, Inserting(c, sys.ttlSeconds))]);
        NoTtlNoKey(sys.keys, id, h.record, sys.clock);
      }
    }
  }

  lemma ModifyPerforms(sys: System, id: Id, c: Choice, luck: Luck)
    requires id in sys.workers && sys.workers[id].call.Idle? && CanAct(sys.workers[id].handler, c)
    requires sys.workers[id].handler.record.id == id
    requires ActionOf(sys.workers[id].handler, c).MetadataAction? || ActionOf(sys.workers[id].handler, c).UpdateAction?
    ensures var h := sys.workers[id].handler;
            && RunCall(sys, id, c, luck).keys == Performed(sys.keys, h.record, ActionOf(h, c), sys.ttlSeconds,
                                                           sys.clock, luck)
            && RunCall(sys, id, c, luck).workers == sys.workers[id := Done(sys.workers[id], c)]
  {
    var h := sys.workers[id].handler;
    var m := Modified(Lookup(sys.keys, id, sys.clock), h.record.owner, ActionOf(h, c), sys.clock);
    var one := Next(sys, Act(id, c));
    assert one == sys.(workers := sys.workers[id := Worker(h, Fetching(c))]);
    if luck.connected && luck.first && m.Some? {
      var two := Next(one, Command(id, true, sys.clock));
      assert two == sys.(workers := sys.workers[id := Worker(h, Writing(c, m.value, sys.clock))]) by {
        hide Modified, NextPc, CanAct, ActionOf;
      }
      RemainingIsPositive(m.value, sys.clock);
      hide Modified, NextPc, CanAct, ActionOf, RemainingSeconds, Lookup, SetEx;
    } else {
      hide Modified, NextPc, CanAct, ActionOf, RemainingSeconds, Lookup, SetEx;
    }
  }

  lemma RunCallPerforms(sys: System, id: Id, c: Choice, luck: Luck)
    requires id in sys.workers && sys.workers[id].call.Idle? && CanAct(sys.workers[id].handler, c)
    requires sys.workers[id].handler.record.id == id
    ensures var h := sys.workers[id].handler;
            && RunCall(sys, id, c, luck).keys == Performed(sys.keys, h.record, ActionOf(h, c), sys.ttlSeconds,
                                                           sys.clock, luck)
            && RunCall(sys, id, c, luck).workers == sys.workers[id := Done(sys.workers[id], c)]
  {
    if ActionOf(sys.workers[id].handler, c).PutAction? || ActionOf(sys.workers[id].handler, c).NoAction? {
      PutPerforms(sys, id, c, luck);
    } else {
      ModifyPerforms(sys, id, c, luck);
    }
  }

  // The machine, left alone, does to the keyspace exactly what the call is proved to do.
  lemma CallIsASchedule(sys: System, id: Id, c: Choice, luck: Luck) returns (events: seq<Event>)
    requires id in sys.workers && sys.workers[id].call.Idle? && CanAct(sys.workers[id].handler, c)
    requires sys.workers[id].handler.record.id == id
    ensures Schedule(sys, events)
    ensures var h := sys.workers[id].handler;
            && After(sys, events).keys == Performed(sys.keys, h.record, ActionOf(h, c), sys.ttlSeconds, sys.clock, luck)
            && After(sys, events).workers == sys.workers[id := Done(sys.workers[id], c)]
  {
    RunCallPerforms(sys, id, c, luck);
    Extend(sys, [], Act(id, c));
    events := [] + [Act(id, c)];
    var one := Next(sys, Act(id, c));
    if !one.workers[id].call.Idle? {
      hide Performed, Schedule, After;
      if !luck.connected {
        Extend(sys, events, NoConnection(id));
        events := events + [NoConnection(id)];
      } else {
        var first, second := Command(id, luck.first, sys.clock), Command(id, luck.second, sys.clock);
        Extend(sys, events, first);
        events := events + [first];
        if !Next(one, first).workers[id].call.Idle? {
          Extend(sys, events, second);
          events := events + [second];
        }
      }
    }
  }

  // --------------------------------------------------------------------------
  // What a lookup finds
  // --------------------------------------------------------------------------

  // A lookup returns a record exactly when Redis still has the key, the owner asks, and the record has not expired; it
  // then returns the stored value.
  lemma ReadFindsTheRecord(sys: System, id: Id, key: KeyId)
    ensures var r := ReadFinds(sys, id, key);
            var there := id in sys.keys && sys.clock < sys.keys[id].deadline && sys.keys[id].value.owner == key;
            && (r.Returned? && r.found.Some? <==> there && sys.clock <= sys.keys[id].value.expires)
            && (r.Returned? && r.found.Some? ==> r.found.value == sys.keys[id].value)
            && (r.MustDelete? <==> there && sys.keys[id].value.expires < sys.clock)
  {
  }

  // What an undisturbed, successful call of `SetRecipientMetadata` leaves for a lookup within the next second.
  lemma MetadataIsVisible(keys: Keyspace, id: Id, owner: KeyId, domains: seq<string>, count: nat, now: Instant,
                          later: Instant)
    requires id in keys && now < keys[id].deadline && now <= later < now + NANOS_PER_SECOND
    ensures var r := keys[id].value;
            var keys' := Rewritten(keys, id, owner, MetadataAction(domains, count), now, Luck(true, true, true));
            if r.owner == owner && now <= r.expires
            then Lookup(keys', id, later)
                 == Some(Record(r.id, r.owner, r.status, r.code, r.message, domains, count, r.created, now, r.expires))
            else keys' == keys
  {
    RemainingIsPositive(keys[id].value, now);
  }

  // The same for `UpdateRecord`.
  lemma UpdateIsVisible(keys: Keyspace, id: Id, owner: KeyId, u: Update, now: Instant, later: Instant)
    requires id in keys && now < keys[id].deadline && now <= later < now + NANOS_PER_SECOND
    ensures var r := keys[id].value;
            var keys' := Rewritten(keys, id, owner, UpdateAction(u), now, Luck(true, true, true));
            if r.owner == owner && now <= r.expires && (r.status.Received? || r.status.SubmissionStarted?)
            then Lookup(keys', id, later)
                 == Some(Record(r.id, r.owner, u.status, u.code, if u.message.Some? then u.message else r.message,
                                r.domains, r.count, r.created, now, r.expires))
            else keys' == keys
  {
    RemainingIsPositive(keys[id].value, now);
  }

  // And for `PutReceived`: a new record is found for as long as its ttl runs, an existing one is left alone.
  lemma PutIsVisible(keys: Keyspace, record: Record, ttlSeconds: nat, now: Instant, later: Instant)
    requires 0 < ttlSeconds && now <= later < now + ttlSeconds * 1_000_000_000
    ensures var keys' := Inserted(keys, record, ttlSeconds, now, Luck(true, true, true));
            if record.id in keys && now < keys[record.id].deadline then keys' == keys
            else Lookup(keys', record.id, later) == Some(record)
  {
  }

  // Each method is one call; `now` is when it runs.
  class RedisStatusStore {
    var keys: Keyspace
    var ttlSeconds: nat

    constructor (ttlSeconds: nat)
      ensures keys == map[] && this.ttlSeconds == ttlSeconds
    {
      keys := map[];
      this.ttlSeconds := ttlSeconds;
    }

    method PutReceived(record: Record, now: Instant, luck: Luck)
      modifies this`keys
      ensures keys == Inserted(old(keys), record, ttlSeconds, now, luck)
    {
      if !luck.connected {
        return;
      }
      var present := luck.first && Lookup(keys, record.id, now).Some?;
      if present {
        return;
      }
      if luck.second {
        keys := SetEx(keys, record.id, record, ttlSeconds, now);
      }
    }

    method SetRecipientMetadata(id: Id, key: KeyId, domains: seq<string>, count: nat, now: Instant, luck: Luck)
      modifies this`keys
      ensures keys == Rewritten(old(keys), id, key, MetadataAction(domains, count), now, luck)
    {
      if !luck.connected {
        return;
      }
      var raw := if luck.first then Lookup(keys, id, now) else None;
      if raw.None? {
        return;
      }
      var record := raw.value;
      if record.owner == key && !Expired(record, now) {
        record := record.(domains := domains, count := count, updated := now);
        if luck.second {
          keys := SetEx(keys, id, record, RemainingSeconds(record, now), now);
        }
      }
    }

    method UpdateRecord(id: Id, key: KeyId, update: Update, now: Instant, luck: Luck)
      modifies this`keys
      ensures keys == Rewritten(old(keys), id, key, UpdateAction(update), now, luck)
    {
      if !luck.connected {
        return;
      }
      var raw := if luck.first then Lookup(keys, id, now) else None;
      if raw.None? {
        return;
      }
      var record := raw.value;
      if record.owner != key || Expired(record, now) || Terminal(record.status) {
        return;
      }
      record := record.(status := update.status, code := update.code, updated := now);
      if update.message.Some? {
        record := record.(message := update.message);
      }
      if luck.second {
        keys := SetEx(keys, id, record, RemainingSeconds(record, now), now);
      }
    }

    method Get(id: Id, key: KeyId, now: Instant, luck: Luck) returns (r: Result<Option<Record>, ()>)
      modifies this`keys
      ensures r.Err? <==> !luck.connected || !luck.first
      ensures r.Ok? && r.value.Some? ==>
        Lookup(old(keys), id, now) == r.value && r.value.value.owner == key && now <= r.value.value.expires
      ensures r == Ok(None) ==>
        Lookup(old(keys), id, now).Some? ==>
          Lookup(old(keys), id, now).value.owner != key || Expired(Lookup(old(keys), id, now).value, now)
      ensures keys == if r == Ok(None) && Lookup(old(keys), id, now).Some?
                         && Lookup(old(keys), id, now).value.owner == key && luck.second
                      then old(keys) - {id} else old(keys)
    {
      if !luck.connected || !luck.first {
        return Err(());
      }
      var raw := Lookup(keys, id, now);
      if raw.None? {
        return Ok(None);
      }
      var record := raw.value;
      if record.owner != key {
        return Ok(None);
      }
      if Expired(record, now) {
        if luck.second {
          keys := keys - {id};
        }
        return Ok(None);
      }
      r := Ok(Some(record));
    }
  }
}
