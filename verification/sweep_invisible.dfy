// Sweeping is invisible: inserting or removing `expire_old_records` calls changes nothing a
// client or a handler can observe.
module SweepInvisible {
  import opened Prelude
  import opened Statuses
  import opened MemoryStores
  import opened MemoryRuns

  // What an operation lets its caller see: the answer of a lookup, or whether an update took effect.
  datatype Observation = Saw(found: Option<Record>) | Took(effective: bool) | Nothing

  function Observe(s: Store, op: Op): Observation {
    match op
    case GetOp(id, key, now) => Saw(Found(s, id, key, now))
    case UpdateOp(id, key, _, now) => Took(Accepts(s, id, key, now))
    case _ => Nothing
  }

  // The observations of every operation except the sweeps.
  function Observed(s: Store, ops: seq<Op>): seq<Observation>
    decreases |ops|
  {
    if ops == [] then []
    else (if ops[0].SweepOp? then [] else [Observe(s, ops[0])]) + Observed(Step(s, ops[0]), ops[1..])
  }

  function WithoutSweeps(ops: seq<Op>): seq<Op> {
    if ops == [] then []
    else (if ops[0].SweepOp? then [] else [ops[0]]) + WithoutSweeps(ops[1..])
  }

  predicate Sequential(op: Op) {
    op.PutOp? || op.MetadataOp? || op.UpdateOp? || op.GetOp? || op.SweepOp?
  }

  predicate ReadsTheClock(op: Op) {
    op.MetadataOp? || op.UpdateOp? || op.GetOp?
  }

  // Every put uses a fresh id, and every lookup or write reads a later clock than every sweep before it. Nothing
  // else is asked of the clocks: a sweep may have read its own long before it runs, and readings may repeat.
  ghost predicate Orderly(ops: seq<Op>, used: set<Id>, lastSweep: Instant)
    decreases |ops|
  {
    ops == [] ||
    (var op := ops[0];
     && Sequential(op)
     && (ReadsTheClock(op) ==> lastSweep < op.now)
     && (op.PutOp? ==> op.record.id !in used)
     && Orderly(ops[1..],
                if op.PutOp? then used + {op.record.id} else used,
                if op.SweepOp? then Max(lastSweep, op.now) else lastSweep))
  }

  // The store is below its limit at every put of the sweepless run.
  ghost predicate NeverFull(s: Store, ops: seq<Op>)
    decreases |ops|
  {
    ops == [] || ((ops[0].PutOp? ==> |s.records| < s.maxRecords) && NeverFull(Step(s, ops[0]), ops[1..]))
  }

  // `swept` is what remains of `full` after sweeps up to the instant `at`.
  ghost predicate Remains(swept: Store, full: Store, at: Instant) {
    && swept.maxRecords == full.maxRecords
    && |full.records| <= full.maxRecords
    && swept.records.Keys <= full.records.Keys
    && (forall k :: k in swept.records ==> swept.records[k] == full.records[k])
    && (forall k :: k in full.records && k !in swept.records ==> full.records[k].expires <= at)
  }

  lemma RemainsSmaller(swept: Store, full: Store, at: Instant)
    requires Remains(swept, full, at)
    ensures |swept.records| <= |full.records|
  {
    SubsetSize(swept.records.Keys, full.records.Keys);
    assert |swept.records| == |swept.records.Keys| && |full.records| == |full.records.Keys|;
  }

  lemma SweepStep(swept: Store, full: Store, at: Instant, now: Instant, victims: set<Id>)
    requires Remains(swept, full, at) && SweepAllowed(swept, now, victims)
    ensures Remains(Sweep(swept, now, victims), full, Max(at, now))
  {
    RemainsSmaller(swept, full, at);
    LiveIsSmaller(swept.records, now);
    SweepKeepsYoungest(swept, now, victims);
  }

  lemma PutStep(swept: Store, full: Store, at: Instant, r: Record, victim: Id)
    requires Remains(swept, full, at)
    requires r.id !in full.records && |full.records| < full.maxRecords
    ensures Remains(Put(swept, r, victim), Put(full, r, victim), at)
  {
    RemainsSmaller(swept, full, at);
    AddOne(full.records, r);
  }

  lemma LookupStep(swept: Store, full: Store, at: Instant, id: Id, key: KeyId, now: Instant)
    requires Remains(swept, full, at) && at < now
    ensures Found(swept, id, key, now) == Found(full, id, key, now)
    ensures Remains(AfterGet(swept, id, key, now), AfterGet(full, id, key, now), at)
  {
    if id in full.records {
      RemoveOne(full.records, id);
    }
  }

  lemma WriteStep(swept: Store, full: Store, at: Instant, op: Op)
    requires Remains(swept, full, at)
    requires (op.MetadataOp? || op.UpdateOp?) && at < op.now
    ensures Remains(Step(swept, op), Step(full, op), at)
    ensures Writable(swept, op.id, op.key, op.now) <==> Writable(full, op.id, op.key, op.now)
    ensures Accepts(swept, op.id, op.key, op.now) <==> Accepts(full, op.id, op.key, op.now)
  {
    hide Applied;
    Overwrite(full, Step(full, op));
  }

  // A lookup or write runs strictly after every sweep, so a record that only the sweepless store still
  // holds is expired for it.
  lemma OtherStep(swept: Store, full: Store, at: Instant, op: Op)
    requires Remains(swept, full, at) && ReadsTheClock(op) && at < op.now
    ensures Remains(Step(swept, op), Step(full, op), at)
    ensures Observe(swept, op) == Observe(full, op)
  {
    if op.GetOp? {
      LookupStep(swept, full, at, op.id, op.key, op.now);
    } else {
      WriteStep(swept, full, at, op);
    }
    hide Found, AfterGet, Accepts, UpdateStatus, SetMetadata, Remains;
  }

  // Two runs that differ only in their sweeps observe the same.
  lemma {:induction false} SweepsAreInvisible(swept: Store, full: Store, ops: seq<Op>, used: set<Id>, at: Instant)
    requires Remains(swept, full, at) && Legal(swept, ops)
    requires Orderly(ops, used, at) && full.records.Keys <= used
    requires NeverFull(full, WithoutSweeps(ops))
    ensures Observed(swept, ops) == Observed(full, WithoutSweeps(ops))
    decreases |ops|
  {
    if ops != [] {
      var op := ops[0];
      var rest := ops[1..];
      if op.SweepOp? {
        SweepStep(swept, full, at, op.now, op.victims);
        assert WithoutSweeps(ops) == WithoutSweeps(rest);
        SweepsAreInvisible(Step(swept, op), full, rest, used, Max(at, op.now));
        assert Observed(swept, ops) == Observed(Step(swept, op), rest);
      } else {
        assert WithoutSweeps(ops) == [op] + WithoutSweeps(rest);
        assert WithoutSweeps(ops)[1..] == WithoutSweeps(rest);
        if op.PutOp? {
          PutStep(swept, full, at, op.record, op.victim);
        } else {
          OtherStep(swept, full, at, op);
        }
        SweepsAreInvisible(Step(swept, op), Step(full, op), rest,
                           if op.PutOp? then used + {op.record.id} else used, at);
      }
    }
  }

  // Hence sweeps can be inserted or removed anywhere: any two such runs from the empty store
  // with the same other operations give the same observations.
  lemma SweepsCanMove(maxRecords: nat, ops: seq<Op>, others: seq<Op>, start: Instant)
    requires WithoutSweeps(ops) == WithoutSweeps(others)
    requires Legal(EmptyStore(maxRecords), ops) && Legal(EmptyStore(maxRecords), others)
    requires Orderly(ops, {}, start) && Orderly(others, {}, start)
    requires NeverFull(EmptyStore(maxRecords), WithoutSweeps(ops))
    ensures Observed(EmptyStore(maxRecords), ops) == Observed(EmptyStore(maxRecords), others)
  {
    var s := EmptyStore(maxRecords);
    SweepsAreInvisible(s, s, ops, {}, start);
    SweepsAreInvisible(s, s, others, {}, start);
  }

  // Without a clock that moves between a sweep and a lookup the two differ exactly when the
  // record expires at the very instant of both: the sweep drops what the lookup would serve.
  lemma SweepVisibleOnlyAtExpiry(s: Store, at: Instant, victims: set<Id>, id: Id, key: KeyId, now: Instant)
    requires SweepAllowed(s, at, victims) && |s.records| <= s.maxRecords && at <= now
    ensures Found(Sweep(s, at, victims), id, key, now) != Found(s, id, key, now)
            <==> id in s.records && s.records[id].owner == key && s.records[id].expires == at == now
  {
    LiveIsSmaller(s.records, at);
    SweepKeepsYoungest(s, at, victims);
  }
}
