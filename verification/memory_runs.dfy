// Whole runs of the in-memory store: capacity, conservation, and why sweeping is invisible.
module MemoryRuns {
  import opened Prelude
  import opened Statuses
  import opened MemoryStores

  // Everything that can happen to the store, one lock-held region each. `Get` is an undisturbed
  // lookup; `WritePhase` is the second half of a lookup that other operations may separate
  // from its first half, which changes nothing.
  datatype Op =
    | PutOp(record: Record, victim: Id)
    | MetadataOp(id: Id, key: KeyId, domains: seq<string>, count: nat, now: Instant)
    | UpdateOp(id: Id, key: KeyId, update: Update, now: Instant)
    | GetOp(id: Id, key: KeyId, now: Instant)
    | WritePhaseOp(id: Id, now: Instant)
    | SweepOp(now: Instant, victims: set<Id>)
    | CountOp
    | ReloadOp(maxRecords: nat)

  predicate Allowed(s: Store, op: Op) {
    match op
    case PutOp(r, victim) => PutAllowed(s, r, victim)
    case SweepOp(now, victims) => SweepAllowed(s, now, victims)
    case _ => true
  }

  function Step(s: Store, op: Op): Store {
    match op
    case PutOp(r, victim) => Put(s, r, victim)
    case MetadataOp(id, key, domains, count, now) => SetMetadata(s, id, key, domains, count, now)
    case UpdateOp(id, key, u, now) => UpdateStatus(s, id, key, u, now)
    case GetOp(id, key, now) => AfterGet(s, id, key, now)
    case WritePhaseOp(id, now) => Write(s, id, now)
    case SweepOp(now, victims) => Sweep(s, now, victims)
    case CountOp => Count(s)
    case ReloadOp(m) => Reload(s, m)
  }

  ghost predicate Legal(s: Store, ops: seq<Op>)
    decreases |ops|
  {
    ops == [] || (Allowed(s, ops[0]) && Legal(Step(s, ops[0]), ops[1..]))
  }

  function Run(s: Store, ops: seq<Op>): Store
    decreases |ops|
  {
    if ops == [] then s else Run(Step(s, ops[0]), ops[1..])
  }

  // --------------------------------------------------------------------------
  // Capacity keeps the youngest
  // --------------------------------------------------------------------------

  lemma AddOne(records: map<Id, Record>, r: Record)
    requires r.id !in records
    ensures |records[r.id := r]| == |records| + 1
  {
    assert records[r.id := r].Keys == records.Keys + {r.id};
    assert |records[r.id := r].Keys| == |records[r.id := r]| && |records.Keys| == |records|;
  }

  // A put ends within the larger of what it found and the limit (a limit of 0 still admits the new
  // record); it evicts at most one record, an oldest one, and leaves the others alone.
  lemma PutKeepsYoungest(s: Store, r: Record, victim: Id)
    requires PutAllowed(s, r, victim)
    ensures var s' := Put(s, r, victim);
            && |s'.records| <= Max(|s.records|, Max(s.maxRecords, 1))
            && r.id in s'.records && (r.id in s.records ==> s' == s)
            && (r.id !in s.records ==> s'.records[r.id] == r)
            && (forall k :: k in s'.records && k != r.id ==> k in s.records && s'.records[k] == s.records[k])
            && (forall k :: k in s.records && k !in s'.records ==>
                  k == victim && Oldest(s.records, k) && |s.records| >= s.maxRecords)
  {
    if r.id !in s.records {
      if MustEvict(s, r) {
        RemoveOne(s.records, victim);
      }
      var kept := if MustEvict(s, r) then s.records - {victim} else s.records;
      AddOne(kept, r);
    }
  }

  lemma WithoutSize(records: map<Id, Record>, dropped: set<Id>)
    requires dropped <= records.Keys
    ensures |records - dropped| == |records| - |dropped|
  {
    assert (records - dropped).Keys == records.Keys - dropped;
    SubsetSize(dropped, records.Keys);
    assert |(records - dropped).Keys| == |records - dropped| && |records.Keys| == |records|;
  }

  // A sweep ends within the limit; what it drops is either expired or no younger than anything it keeps.
  lemma SweepKeepsYoungest(s: Store, now: Instant, victims: set<Id>)
    requires SweepAllowed(s, now, victims)
    ensures var s' := Sweep(s, now, victims);
            && |s'.records| == Min(|Live(s.records, now)|, s.maxRecords)
            && (|s.records| <= s.maxRecords ==>
                  forall k :: k in s'.records <==> k in s.records && s.records[k].expires > now)
            && (|Live(s.records, now)| <= s.maxRecords ==> s'.records == Live(s.records, now))
            && (forall k :: k in s'.records ==>
                  k in s.records && s'.records[k] == s.records[k] && s.records[k].expires > now)
            && (forall v, k :: v in s.records && v !in s'.records && k in s'.records ==>
                  s.records[v].expires <= now || s.records[v].created <= s.records[k].created)
  {
    WithoutSize(Live(s.records, now), victims);
    LiveIsSmaller(s.records, now);
    if |Live(s.records, now)| <= s.maxRecords {
      assert victims == {};
    }
  }

  // --------------------------------------------------------------------------
  // What a lookup finds
  // --------------------------------------------------------------------------

  // A new record is found by its owner, and by nobody else, up to and including the instant `ttlSeconds` after it was
  // made, as received, without recipients.
  lemma RecordLivesForItsTtl(s: Store, id: Id, owner: KeyId, ttlSeconds: nat, made: Instant, victim: Id, key: KeyId,
                             now: Instant)
    requires id !in s.records && PutAllowed(s, NewReceived(id, owner, ttlSeconds, made), victim)
    ensures var seen := Found(Put(s, NewReceived(id, owner, ttlSeconds, made), victim), id, key, now);
            && (seen.Some? <==> key == owner && now <= made + ttlSeconds * 1_000_000_000)
            && (seen.Some? ==>
                  seen.value == Record(id, owner, Received, None, Some("Submission received."), [], 0,
                                       made, made, made + ttlSeconds * 1_000_000_000))
  {
  }

  // An update takes effect on the owner's record exactly up to its expiry and unless it is final; a lookup then finds
  // the new status and code, the new message or else the old one, the time of the update, and the rest as it was.
  lemma UpdateIsVisible(s: Store, id: Id, key: KeyId, u: Update, now: Instant, later: Instant)
    requires id in s.records && now <= later <= s.records[id].expires
    ensures var r, s' := s.records[id], UpdateStatus(s, id, key, u, now);
            if r.owner == key && (r.status.Received? || r.status.SubmissionStarted?) then
              && Found(s', id, key, later)
                 == Some(Record(r.id, r.owner, u.status, u.code, if u.message.Some? then u.message else r.message,
                                r.domains, r.count, r.created, now, r.expires))
              && forall k :: k != id ==>
                   (k in s'.records <==> k in s.records) && (k in s'.records ==> s'.records[k] == s.records[k])
            else s' == s
  {
  }

  lemma MetadataIsVisible(s: Store, id: Id, key: KeyId, domains: seq<string>, count: nat, now: Instant, later: Instant)
    requires id in s.records && now <= later <= s.records[id].expires
    ensures var r, s' := s.records[id], SetMetadata(s, id, key, domains, count, now);
            if r.owner == key then
              && Found(s', id, key, later)
                 == Some(Record(r.id, r.owner, r.status, r.code, r.message, domains, count, r.created, now, r.expires))
              && forall k :: k != id ==>
                   (k in s'.records <==> k in s.records) && (k in s'.records ==> s'.records[k] == s.records[k])
            else s' == s
  {
  }

  // What an operation adds to the transition counters: one for a record inserted, one for an update that takes effect.
  function TransitionOf(s: Store, op: Op): multiset<(Status, Option<ErrorCode>)> {
    if op.PutOp? && op.record.id !in s.records then multiset{(Received, None)}
    else if op.UpdateOp? && op.id in s.records && s.records[op.id].owner == op.key
            && op.now <= s.records[op.id].expires
            && (s.records[op.id].status.Received? || s.records[op.id].status.SubmissionStarted?)
    then multiset{(op.update.status, op.update.code)}
    else multiset{}
  }

  function TransitionsOf(s: Store, ops: seq<Op>): multiset<(Status, Option<ErrorCode>)>
    decreases |ops|
  {
    if ops == [] then multiset{} else TransitionOf(s, ops[0]) + TransitionsOf(Step(s, ops[0]), ops[1..])
  }

  lemma StepCountsTransition(s: Store, op: Op)
    ensures Step(s, op).counters.transitions == s.counters.transitions + TransitionOf(s, op)
  {
    hide Live;
  }

  // Over any run the counters have seen exactly those.
  lemma {:induction false} TransitionsAreCounted(s: Store, ops: seq<Op>)
    ensures Run(s, ops).counters.transitions == s.counters.transitions + TransitionsOf(s, ops)
    decreases |ops|
  {
    hide Step, TransitionOf;
    if ops != [] {
      StepCountsTransition(s, ops[0]);
      TransitionsAreCounted(Step(s, ops[0]), ops[1..]);
    }
  }

  predicate FixedConfig(ops: seq<Op>) {
    forall i :: 0 <= i < |ops| ==> !ops[i].ReloadOp?
  }

  lemma Overwrite(s: Store, s': Store)
    requires s.records.Keys == s'.records.Keys
    ensures |s.records| == |s'.records|
  {
    assert |s.records| == |s.records.Keys| && |s'.records| == |s'.records.Keys|;
  }

  lemma StepKeepsConfig(s: Store, op: Op)
    requires !op.ReloadOp?
    ensures Step(s, op).maxRecords == s.maxRecords
  {
    hide Live;
  }

  // Lookups only remove records, and writes keep the ids.
  lemma LookupKeepsBound(s: Store, op: Op)
    requires op.GetOp? || op.WritePhaseOp? || op.MetadataOp? || op.UpdateOp?
    ensures |Step(s, op).records| <= |s.records|
  {
    SubsetSize(Step(s, op).records.Keys, s.records.Keys);
    assert |s.records| == |s.records.Keys| && |Step(s, op).records| == |Step(s, op).records.Keys|;
  }

  lemma StepKeepsBound(s: Store, op: Op)
    requires Allowed(s, op) && !op.ReloadOp?
    ensures Step(s, op).maxRecords == s.maxRecords
    ensures |Step(s, op).records| <= Max(|s.records|, Max(s.maxRecords, 1))
    ensures op.SweepOp? ==> |Step(s, op).records| <= s.maxRecords
  {
    hide Live, SweepAllowed, Oldest, Sweep, Put, SetMetadata, UpdateStatus, Write;
    StepKeepsConfig(s, op);
    match op
    case PutOp(r, victim) => PutKeepsYoungest(s, r, victim);
    case SweepOp(now, victims) => SweepKeepsYoungest(s, now, victims);
    case CountOp =>
    case ReloadOp(_) =>
    case _ => LookupKeepsBound(s, op);
  }

  // Under a fixed configuration no run leaves the bound it starts within.
  lemma {:induction false} CapacityHolds(s: Store, ops: seq<Op>)
    requires Legal(s, ops) && FixedConfig(ops) && |s.records| <= Max(s.maxRecords, 1)
    ensures |Run(s, ops).records| <= Max(s.maxRecords, 1) && Run(s, ops).maxRecords == s.maxRecords
    decreases |ops|
  {
    if ops != [] {
      StepKeepsBound(s, ops[0]);
      CapacityHolds(Step(s, ops[0]), ops[1..]);
    }
  }

  lemma {:induction false} MaxRecordsFixed(s: Store, ops: seq<Op>)
    requires FixedConfig(ops)
    ensures Run(s, ops).maxRecords == s.maxRecords
    decreases |ops|
  {
    if ops != [] {
      MaxRecordsFixed(Step(s, ops[0]), ops[1..]);
    }
  }

  // After a reload that lowers the limit, the first sweep restores the bound for good.
  lemma SweepRestoresCapacity(s: Store, lowered: nat, between: seq<Op>, now: Instant, victims: set<Id>, rest: seq<Op>)
    requires FixedConfig(between) && FixedConfig(rest)
    requires var t := Run(Reload(s, lowered), between);
             SweepAllowed(t, now, victims) && Legal(Sweep(t, now, victims), rest)
    ensures var swept := Sweep(Run(Reload(s, lowered), between), now, victims);
            |swept.records| <= lowered && |Run(swept, rest).records| <= Max(lowered, 1)
  {
    var t := Run(Reload(s, lowered), between);
    MaxRecordsFixed(Reload(s, lowered), between);
    SweepKeepsYoungest(t, now, victims);
    CapacityHolds(Sweep(t, now, victims), rest);
  }

  // --------------------------------------------------------------------------
  // Conservation of records and counters
  // --------------------------------------------------------------------------

  // History of a run, counted by comparing key sets before and after each step: a record that
  // disappears after its expiry was removed by TTL, any other was evicted.
  datatype Tally = Tally(inserted: nat, ttlRemoved: nat, evicted: nat, evictedSinceCount: nat)

  function Gone(s: Store, op: Op): set<Id> {
    s.records.Keys - Step(s, op).records.Keys
  }

  function Outdated(s: Store, op: Op): set<Id> {
    match op
    case SweepOp(now, _) => set k | k in Gone(s, op) && s.records[k].expires <= now
    case GetOp(_, _, now) => set k | k in Gone(s, op) && s.records[k].expires < now
    case WritePhaseOp(_, now) => set k | k in Gone(s, op) && s.records[k].expires < now
    case _ => {}
  }

  function Tallied(t: Tally, s: Store, op: Op): Tally {
    var evicted := |Gone(s, op) - Outdated(s, op)|;
    Tally(t.inserted + |Step(s, op).records.Keys - s.records.Keys|,
          t.ttlRemoved + |Outdated(s, op)|,
          t.evicted + evicted,
          if op.CountOp? then 0 else t.evictedSinceCount + evicted)
  }

  function TallyOf(t: Tally, s: Store, ops: seq<Op>): Tally
    decreases |ops|
  {
    if ops == [] then t else TallyOf(Tallied(t, s, ops[0]), Step(s, ops[0]), ops[1..])
  }

  ghost predicate Conserved(s: Store, t: Tally) {
    && t.inserted == |s.records| + t.ttlRemoved + t.evicted
    && s.expiredTotal == t.ttlRemoved
    && s.counters.expired == t.ttlRemoved
    && s.counters.gauge == |s.records| + t.evictedSinceCount
  }

  lemma KeySetFlow(before: map<Id, Record>, after: map<Id, Record>)
    ensures |after| == |before| + |after.Keys - before.Keys| - |before.Keys - after.Keys|
  {
    var common := before.Keys * after.Keys;
    SubsetSize(common, before.Keys);
    SubsetSize(common, after.Keys);
    assert before.Keys - after.Keys == before.Keys - common;
    assert after.Keys - before.Keys == after.Keys - common;
    assert |before| == |before.Keys| && |after| == |after.Keys|;
  }

  // How a step moves the counters, against how the key sets moved.
  ghost predicate Flows(s: Store, op: Op, added: nat, ttl: nat) {
    var s' := Step(s, op);
    && added == |s'.records.Keys - s.records.Keys| && ttl == |Outdated(s, op)| && Outdated(s, op) <= Gone(s, op)
    && s'.expiredTotal == s.expiredTotal + ttl && s'.counters.expired == s.counters.expired + ttl
    && s'.counters.gauge == if op.CountOp? then |s'.records| else s.counters.gauge + added - ttl
  }

  lemma PutFlow(s: Store, r: Record, victim: Id)
    requires PutAllowed(s, r, victim)
    ensures Flows(s, PutOp(r, victim), if r.id in s.records then 0 else 1, 0)
  {
    var op := PutOp(r, victim);
    var added := Step(s, op).records.Keys - s.records.Keys;
    if r.id in s.records {
      assert added == {};
    } else {
      assert added == {r.id};
    }
  }

  lemma SweepOutdated(s: Store, now: Instant, victims: set<Id>)
    ensures Outdated(s, SweepOp(now, victims)) == s.records.Keys - Live(s.records, now).Keys
    ensures Sweep(s, now, victims).records.Keys <= s.records.Keys
  {
    hide EvictionAllowed;
    var live := Live(s.records, now);
    assert Step(s, SweepOp(now, victims)).records == live - victims;
  }

  lemma SweepFlow(s: Store, now: Instant, victims: set<Id>)
    requires SweepAllowed(s, now, victims)
    ensures Flows(s, SweepOp(now, victims), 0, |Outdated(s, SweepOp(now, victims))|)
  {
    SweepOutdated(s, now, victims);
    LiveIsSmaller(s.records, now);
    assert Sweep(s, now, victims).records.Keys - s.records.Keys == {};
    hide Live, EvictionAllowed;
  }

  lemma LookupFlow(s: Store, op: Op, id: Id)
    requires op.GetOp? || op.WritePhaseOp?
    requires id == op.id
    ensures Flows(s, op, 0, if Step(s, op) == s then 0 else 1)
  {
    var s' := Step(s, op);
    assert s'.records.Keys - s.records.Keys == {};
    if s' != s {
      assert Outdated(s, op) == {id};
    } else {
      assert Outdated(s, op) == {};
    }
  }

  lemma RewriteFlow(s: Store, op: Op)
    requires op.MetadataOp? || op.UpdateOp? || op.CountOp? || op.ReloadOp?
    ensures Flows(s, op, 0, 0)
  {
    assert Step(s, op).records.Keys == s.records.Keys;
    assert Step(s, op).records.Keys - s.records.Keys == {};
  }

  lemma StepFlows(s: Store, op: Op) returns (added: nat, ttl: nat)
    requires Allowed(s, op)
    ensures Flows(s, op, added, ttl)
  {
    hide Flows;
    match op
    case PutOp(r, victim) =>
      PutFlow(s, r, victim);
      added, ttl := if r.id in s.records then 0 else 1, 0;
    case SweepOp(now, victims) =>
      SweepFlow(s, now, victims);
      added, ttl := 0, |Outdated(s, op)|;
    case GetOp(id, key, now) =>
      LookupFlow(s, op, id);
      added, ttl := 0, if Step(s, op) == s then 0 else 1;
    case WritePhaseOp(id, now) =>
      LookupFlow(s, op, id);
      added, ttl := 0, if Step(s, op) == s then 0 else 1;
    case _ =>
      RewriteFlow(s, op);
      added, ttl := 0, 0;
  }

  lemma StepConserves(s: Store, t: Tally, op: Op)
    requires Allowed(s, op) && Conserved(s, t)
    ensures Conserved(Step(s, op), Tallied(t, s, op))
  {
    var added, ttl := StepFlows(s, op);
    hide Step, Outdated;
    KeySetFlow(s.records, Step(s, op).records);
    SubsetSize(Outdated(s, op), Gone(s, op));
  }

  // In every reachable state: inserted = live + expired + evicted, both expiry counters equal the
  // number of records that expired (so racing lookups count each of them once), and the gauge
  // is ahead of the live records by exactly the evictions since it was last set.
  lemma {:induction false} RunConserves(s: Store, t: Tally, ops: seq<Op>)
    requires Legal(s, ops) && Conserved(s, t)
    ensures Conserved(Run(s, ops), TallyOf(t, s, ops))
    decreases |ops|
  {
    if ops != [] {
      StepConserves(s, t, ops[0]);
      RunConserves(Step(s, ops[0]), Tallied(t, s, ops[0]), ops[1..]);
    }
  }

  lemma ConservationFromStart(maxRecords: nat, ops: seq<Op>)
    requires Legal(EmptyStore(maxRecords), ops)
    ensures Conserved(Run(EmptyStore(maxRecords), ops), TallyOf(Tally(0, 0, 0, 0), EmptyStore(maxRecords), ops))
  {
    RunConserves(EmptyStore(maxRecords), Tally(0, 0, 0, 0), ops);
  }
}
