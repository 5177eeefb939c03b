// The two-lock lookup of the in-memory store under interleaving (status_memory.rs, `get`).
//
// A lookup reads under the shared lock and, when it met an expired record, deletes it later
// under the exclusive lock. Any number of lookups and other operations interleave between the two.
module TwoLockGet {
  import opened Prelude
  import opened Statuses
  import opened MemoryStores
  import opened MemoryRuns

  type ThreadId = nat

  datatype Pending = Pending(id: Id, key: KeyId)

  // `used` are the ids ever inserted: request ids are never reused.
  datatype System = System(store: Store, pending: map<ThreadId, Pending>, clock: Instant, used: set<Id>)

  datatype Event =
    | Begin(thread: ThreadId, id: Id, key: KeyId)
    | Finish(thread: ThreadId)
    | Other(op: Op)
    | Tick(nanos: nat)

  // What a finished lookup returned.
  datatype Completion = Completion(id: Id, key: KeyId, found: Option<Record>)

  predicate Enabled(sys: System, e: Event) {
    match e
    case Begin(t, _, _) => t !in sys.pending
    case Finish(t) => t in sys.pending
    case Tick(_) => true
    case Other(op) =>
      && Allowed(sys.store, op)
      && !op.GetOp? && !op.WritePhaseOp?
      && (op.PutOp? ==> op.record.id !in sys.used)
      && (op.SweepOp? ==> op.now <= sys.clock)
  }

  function Next(sys: System, e: Event): System {
    match e
    case Begin(t, id, key) =>
      if Read(sys.store, id, key, sys.clock).NeedsWrite?
      then sys.(pending := sys.pending[t := Pending(id, key)])
      else sys
    case Finish(t) =>
      if t in sys.pending
      then sys.(store := Write(sys.store, sys.pending[t].id, sys.clock), pending := sys.pending - {t})
      else sys
    case Other(op) =>
      sys.(store := Step(sys.store, op), used := if op.PutOp? then sys.used + {op.record.id} else sys.used)
    case Tick(n) => sys.(clock := sys.clock + n)
  }

  // What the event returns to a client.
  function Returns(sys: System, e: Event): seq<Completion> {
    match e
    case Begin(_, id, key) =>
      (match Read(sys.store, id, key, sys.clock)
       case Answer(found) => [Completion(id, key, found)]
       case NeedsWrite => [])
    case Finish(t) =>
      if t in sys.pending then [Completion(sys.pending[t].id, sys.pending[t].key, None)] else []
    case _ => []
  }

  // The indivisible operation the event stands for: a lookup happens where it returns.
  function Atomic(sys: System, e: Event): seq<Op> {
    match e
    case Begin(_, id, key) =>
      if Read(sys.store, id, key, sys.clock).NeedsWrite? then [] else [GetOp(id, key, sys.clock)]
    case Finish(t) =>
      if t in sys.pending then [GetOp(sys.pending[t].id, sys.pending[t].key, sys.clock)] else []
    case Other(op) => [op]
    case Tick(_) => []
  }

  ghost predicate Schedule(sys: System, events: seq<Event>)
    decreases |events|
  {
    events == [] || (Enabled(sys, events[0]) && Schedule(Next(sys, events[0]), events[1..]))
  }

  function After(sys: System, events: seq<Event>): System
    decreases |events|
  {
    if events == [] then sys else After(Next(sys, events[0]), events[1..])
  }

  function Completions(sys: System, events: seq<Event>): seq<Completion>
    decreases |events|
  {
    if events == [] then [] else Returns(sys, events[0]) + Completions(Next(sys, events[0]), events[1..])
  }

  function AtomicOps(sys: System, events: seq<Event>): seq<Op>
    decreases |events|
  {
    if events == [] then [] else Atomic(sys, events[0]) + AtomicOps(Next(sys, events[0]), events[1..])
  }

  // What the lookups of a run of indivisible operations return.
  function Answers(s: Store, ops: seq<Op>): seq<Completion>
    decreases |ops|
  {
    if ops == [] then []
    else
      (if ops[0].GetOp?
       then [Completion(ops[0].id, ops[0].key, Found(s, ops[0].id, ops[0].key, ops[0].now))]
       else [])
      + Answers(Step(s, ops[0]), ops[1..])
  }

  // A lookup waiting for its write phase met an expired record of its own key; if the id is
  // still there, it is still that record.
  ghost predicate Inv(sys: System) {
    && sys.store.records.Keys <= sys.used
    && (forall t :: t in sys.pending ==> sys.pending[t].id in sys.used)
    && (forall t :: t in sys.pending && sys.pending[t].id in sys.store.records ==>
          var r := sys.store.records[sys.pending[t].id];
          r.owner == sys.pending[t].key && Expired(r, sys.clock))
  }

  // A step that is not the put of an id never makes the id appear or changes its owner or lifetime.
  lemma StepKeepsIdentity(s: Store, op: Op, id: Id)
    requires Allowed(s, op) && id in Step(s, op).records
    requires op.PutOp? ==> op.record.id != id
    ensures id in s.records
    ensures Step(s, op).records[id].owner == s.records[id].owner
    ensures Step(s, op).records[id].expires == s.records[id].expires
    ensures Step(s, op).records[id].created == s.records[id].created
  {
  }

  lemma EventKeepsInv(sys: System, e: Event)
    requires Inv(sys) && Enabled(sys, e)
    ensures Inv(Next(sys, e))
  {
    match e
    case Other(op) =>
      var s' := Step(sys.store, op);
      forall id | id in s'.records
        ensures id in sys.used || (op.PutOp? && id == op.record.id)
        ensures id in sys.used ==> id in sys.store.records
        ensures id in sys.used ==> s'.records[id].owner == sys.store.records[id].owner
        ensures id in sys.used ==> s'.records[id].expires == sys.store.records[id].expires
      {
        if !(op.PutOp? && op.record.id == id) {
          StepKeepsIdentity(sys.store, op, id);
        }
      }
    case _ =>
  }

  // The event does to the store, and returns, exactly what its indivisible operation does.
  lemma EventIsAtomic(sys: System, e: Event)
    requires Inv(sys) && Enabled(sys, e)
    ensures Run(sys.store, Atomic(sys, e)) == Next(sys, e).store
    ensures Answers(sys.store, Atomic(sys, e)) == Returns(sys, e)
  {
    var ops := Atomic(sys, e);
    if ops != [] {
      assert ops == [ops[0]] && ops[1..] == [];
      assert Run(Step(sys.store, ops[0]), ops[1..]) == Step(sys.store, ops[0]);
      assert Answers(Step(sys.store, ops[0]), ops[1..]) == [];
    }
  }

  lemma {:induction false} RunAppend(s: Store, a: seq<Op>, b: seq<Op>)
    ensures Run(s, a + b) == Run(Run(s, a), b)
    ensures Answers(s, a + b) == Answers(s, a) + Answers(Run(s, a), b)
    decreases |a|
  {
    if a == [] {
      assert a + b == b;
    } else {
      assert (a + b)[1..] == a[1..] + b;
      RunAppend(Step(s, a[0]), a[1..], b);
    }
  }

  // Every interleaving of two-phase lookups with anything else leaves the store, and returns
  // the answers, of a run in which every lookup is indivisible and happens at the moment it
  // returns. So a lookup never returns an expired or foreign record, never deletes a live one, leaves the
  // store alone on an owner mismatch, and racing lookups count one expiry once.
  lemma {:induction false} LookupsAreLinearizable(sys: System, events: seq<Event>)
    requires Inv(sys) && Schedule(sys, events)
    ensures Inv(After(sys, events))
    ensures Run(sys.store, AtomicOps(sys, events)) == After(sys, events).store
    ensures Answers(sys.store, AtomicOps(sys, events)) == Completions(sys, events)
    decreases |events|
  {
    if events != [] {
      var e := events[0];
      EventKeepsInv(sys, e);
      EventIsAtomic(sys, e);
      LookupsAreLinearizable(Next(sys, e), events[1..]);
      RunAppend(sys.store, Atomic(sys, e), AtomicOps(Next(sys, e), events[1..]));
    }
  }

  // What linearizability means for one indivisible lookup.
  lemma LookupContract(s: Store, id: Id, key: KeyId, now: Instant)
    ensures Found(s, id, key, now).Some? <==>
      id in s.records && s.records[id].owner == key && s.records[id].expires >= now
    ensures Found(s, id, key, now).Some? ==> Found(s, id, key, now).value == s.records[id]
    ensures var s' := AfterGet(s, id, key, now);
            && (forall k :: k in s'.records ==> k in s.records && s'.records[k] == s.records[k])
            && (id in s.records && s.records[id].owner == key && s.records[id].expires < now ==> id !in s'.records)
            && (forall k :: k in s.records && k !in s'.records ==>
                  k == id && s.records[k].owner == key && s.records[k].expires < now)
            && (id in s.records && s.records[id].owner != key ==> s' == s)
            && s'.expiredTotal == s.expiredTotal + |s.records.Keys - s'.records.Keys|
  {
    var s' := AfterGet(s, id, key, now);
    if s' != s {
      assert s.records.Keys - s'.records.Keys == {id};
    } else {
      assert s.records.Keys - s'.records.Keys == {};
    }
  }
}
