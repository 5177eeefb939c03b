// The in-memory status store (status_memory.rs).
//
// `Store` is the value of the store and its counters; every function on it is one region held
// under one lock. Where the source picks among equals (the iteration order of a hash map) the
// choice is an argument, restricted by an `...Allowed` predicate.
module MemoryStores {
  import opened Prelude
  import opened Statuses

  // The counters of metrics.rs the store touches.
  datatype Counters = Counters(gauge: int, transitions: multiset<(Status, Option<ErrorCode>)>, expired: nat)

  datatype Store = Store(records: map<Id, Record>, maxRecords: nat, expiredTotal: nat, counters: Counters)

  function EmptyStore(maxRecords: nat): Store {
    Store(map[], maxRecords, 0, Counters(0, multiset{}, 0))
  }

  function Created(c: Counters): Counters {
    c.(gauge := c.gauge + 1, transitions := c.transitions + multiset{(Received, None)})
  }

  function Transitioned(c: Counters, status: Status, code: Option<ErrorCode>): Counters {
    c.(transitions := c.transitions + multiset{(status, code)})
  }

  function RecordsExpired(c: Counters, n: nat): Counters {
    c.(gauge := c.gauge - n, expired := c.expired + n)
  }

  // --------------------------------------------------------------------------
  // put_received
  // --------------------------------------------------------------------------

  predicate Oldest(records: map<Id, Record>, id: Id) {
    id in records && forall k :: k in records ==> records[id].created <= records[k].created
  }

  predicate MustEvict(s: Store, r: Record) {
    r.id !in s.records && |s.records| >= s.maxRecords && s.records != map[]
  }

  predicate PutAllowed(s: Store, r: Record, victim: Id) {
    MustEvict(s, r) ==> Oldest(s.records, victim)
  }

  function Put(s: Store, r: Record, victim: Id): Store {
    if r.id in s.records then s
    else
      var kept := if MustEvict(s, r) then s.records - {victim} else s.records;
      s.(records := kept[r.id := r], counters := Created(s.counters))
  }

  // --------------------------------------------------------------------------
  // set_recipient_metadata and update_status
  // --------------------------------------------------------------------------

  predicate Writable(s: Store, id: Id, key: KeyId, now: Instant) {
    id in s.records && s.records[id].owner == key && !Expired(s.records[id], now)
  }

  function SetMetadata(s: Store, id: Id, key: KeyId, domains: seq<string>, count: nat, now: Instant): Store {
    if Writable(s, id, key, now)
    then s.(records := s.records[id := s.records[id].(domains := domains, count := count, updated := now)])
    else s
  }

  predicate Accepts(s: Store, id: Id, key: KeyId, now: Instant) {
    Writable(s, id, key, now) && !Terminal(s.records[id].status)
  }

  function Applied(r: Record, u: Update, now: Instant): Record {
    r.(status := u.status, code := u.code, message := if u.message.Some? then u.message else r.message, updated := now)
  }

  function UpdateStatus(s: Store, id: Id, key: KeyId, u: Update, now: Instant): Store {
    if Accepts(s, id, key, now)
    then s.(records := s.records[id := Applied(s.records[id], u, now)],
            counters := Transitioned(s.counters, u.status, u.code))
    else s
  }

  // --------------------------------------------------------------------------
  // get, in two phases
  // --------------------------------------------------------------------------

  // What the read phase decides: an answer, or that the expired record should be deleted.
  datatype ReadPhase = Answer(found: Option<Record>) | NeedsWrite

  function Read(s: Store, id: Id, key: KeyId, now: Instant): ReadPhase {
    if id !in s.records then Answer(None)
    else if s.records[id].owner != key then Answer(None)
    else if !Expired(s.records[id], now) then Answer(Some(s.records[id]))
    else NeedsWrite
  }

  // The write phase looks the record up again before deleting it; its answer is always None.
  function Write(s: Store, id: Id, now: Instant): Store {
    if id in s.records && Expired(s.records[id], now)
    then s.(records := s.records - {id}, expiredTotal := s.expiredTotal + 1, counters := RecordsExpired(s.counters, 1))
    else s
  }

  // The get a client is promised: one indivisible lookup.
  function Found(s: Store, id: Id, key: KeyId, now: Instant): Option<Record> {
    if Writable(s, id, key, now) then Some(s.records[id]) else None
  }

  function AfterGet(s: Store, id: Id, key: KeyId, now: Instant): Store {
    if id in s.records && s.records[id].owner == key && Expired(s.records[id], now) then Write(s, id, now) else s
  }

  // --------------------------------------------------------------------------
  // expire_old_records, record_count, reload_config
  // --------------------------------------------------------------------------

  // Unlike `Expired` the sweep drops a record at the very instant it expires.
  function Live(records: map<Id, Record>, now: Instant): map<Id, Record> {
    map k | k in records && records[k].expires > now :: records[k]
  }

  // The oldest records, as many as there are too many.
  predicate EvictionAllowed(live: map<Id, Record>, maxRecords: nat, victims: set<Id>) {
    && victims <= live.Keys
    && |victims| == Max(|live| - maxRecords, 0)
    && (forall v, k :: v in victims && k in live && k !in victims ==> live[v].created <= live[k].created)
  }

  predicate SweepAllowed(s: Store, now: Instant, victims: set<Id>) {
    EvictionAllowed(Live(s.records, now), s.maxRecords, victims)
  }

  lemma SubsetSize<T>(a: set<T>, b: set<T>)
    requires a <= b
    ensures |a| <= |b| && |b - a| == |b| - |a|
  {
    assert b == a + (b - a);
  }

  lemma LiveIsSmaller(records: map<Id, Record>, now: Instant)
    ensures |Live(records, now)| <= |records|
    ensures |records| - |Live(records, now)| == |records.Keys - Live(records, now).Keys|
  {
    var live := Live(records, now);
    SubsetSize(live.Keys, records.Keys);
    assert |live| == |live.Keys| && |records| == |records.Keys|;
  }

  function Sweep(s: Store, now: Instant, victims: set<Id>): Store {
    var live := Live(s.records, now);
    LiveIsSmaller(s.records, now);
    var removed := |s.records| - |live|;
    s.(records := live - victims, expiredTotal := s.expiredTotal + removed,
       counters := RecordsExpired(s.counters, removed))
  }

  function Count(s: Store): Store {
    s.(counters := s.counters.(gauge := |s.records|))
  }

  function Reload(s: Store, maxRecords: nat): Store {
    s.(maxRecords := maxRecords)
  }

  lemma {:induction false} OldestExists(records: map<Id, Record>)
    requires records != map[]
    ensures exists k :: Oldest(records, k)
    decreases |records|
  {
    var k :| k in records;
    var rest := records - {k};
    assert records.Keys == rest.Keys + {k};
    if rest == map[] {
      assert Oldest(records, k);
    } else {
      assert |rest.Keys| == |rest| && |records.Keys| == |records|;
      OldestExists(rest);
      var o :| Oldest(rest, o);
      assert forall j :: j in records ==> j == k || j in rest;
      if records[k].created < records[o].created {
        assert Oldest(records, k);
      } else {
        assert Oldest(records, o);
      }
    }
  }

  // --------------------------------------------------------------------------
  // The mutable store
  // --------------------------------------------------------------------------

  class Metrics {
    var gauge: int
    var transitions: multiset<(Status, Option<ErrorCode>)>
    var expired: nat

    function Value(): Counters
      reads this
    {
      Counters(gauge, transitions, expired)
    }

    constructor ()
      ensures Value() == Counters(0, multiset{}, 0)
    {
      gauge, transitions, expired := 0, multiset{}, 0;
    }

    method StatusRecordCreated()
      modifies this
      ensures Value() == Created(old(Value()))
    {
      gauge := gauge + 1;
      transitions := transitions + multiset{(Received, None)};
    }

    method StatusTransitioned(status: Status, code: Option<ErrorCode>)
      modifies this
      ensures Value() == Transitioned(old(Value()), status, code)
    {
      transitions := transitions + multiset{(status, code)};
    }

    method StatusRecordsExpired(count: nat)
      modifies this
      ensures Value() == RecordsExpired(old(Value()), count)
    {
      if count > 0 {
        gauge := gauge - count;
        expired := expired + count;
      }
    }

    method StatusSetCurrent(count: nat)
      modifies this
      ensures Value() == old(Value()).(gauge := count)
    {
      gauge := count;
    }
  }

  ghost function PrefixSet(keys: seq<Id>, n: nat): set<Id>
    requires n <= |keys|
  {
    set i | 0 <= i < n :: keys[i]
  }

  lemma PrefixSetStep(keys: seq<Id>)
    ensures PrefixSet(keys, 0) == {}
    ensures forall n: nat :: n < |keys| ==> PrefixSet(keys, n + 1) == PrefixSet(keys, n) + {keys[n]}
  {
  }

  // The keys of the records, oldest first. Ties keep whatever order the map yields them in.
  ghost predicate ByAge(keys: seq<Id>, records: map<Id, Record>) {
    && |keys| == |records| && (forall k :: k in keys <==> k in records)
    && (forall i, j :: 0 <= i < j < |keys| ==> keys[i] != keys[j])
    && (forall i, j :: 0 <= i < j < |keys| ==> records[keys[i]].created <= records[keys[j]].created)
  }

  lemma {:induction false} PrefixSetSize(keys: seq<Id>, n: nat)
    requires n <= |keys| && forall i, j :: 0 <= i < j < |keys| ==> keys[i] != keys[j]
    ensures |PrefixSet(keys, n)| == n
  {
    if n > 0 {
      PrefixSetSize(keys, n - 1);
      assert PrefixSet(keys, n) == PrefixSet(keys, n - 1) + {keys[n - 1]};
    }
  }

  lemma OldestPrefix(records: map<Id, Record>, keys: seq<Id>, maxRecords: nat)
    requires ByAge(keys, records) && |records| > maxRecords
    ensures EvictionAllowed(records, maxRecords, PrefixSet(keys, |records| - maxRecords))
  {
    var n := |records| - maxRecords;
    var victims := PrefixSet(keys, n);
    PrefixSetSize(keys, n);
    forall v, k | v in victims && k in records && k !in victims
      ensures records[v].created <= records[k].created
    {
      var a :| 0 <= a < n && keys[a] == v;
      assert k in keys;
      var b :| 0 <= b < |keys| && keys[b] == k;
    }
  }

  // The keys taken so far, in order, are no younger than any record left.
  ghost predicate Divided(keys: seq<Id>, rest: map<Id, Record>, records: map<Id, Record>) {
    && (forall k :: k in records <==> k in rest || k in keys)
    && (forall k :: k in rest ==> k !in keys && rest[k] == records[k])
    && |keys| + |rest| == |records|
    && (forall i, j :: 0 <= i < j < |keys| ==> keys[i] != keys[j])
    && (forall i, j :: 0 <= i < j < |keys| ==> records[keys[i]].created <= records[keys[j]].created)
    && (forall i, k :: 0 <= i < |keys| && k in rest ==> records[keys[i]].created <= records[k].created)
  }

  lemma DividedStarts(records: map<Id, Record>)
    ensures Divided([], records, records)
  {
  }

  lemma RemoveOne(records: map<Id, Record>, k: Id)
    requires k in records
    ensures |records - {k}| == |records| - 1
  {
    assert (records - {k}).Keys == records.Keys - {k};
    assert |(records - {k}).Keys| == |records - {k}| && |records.Keys| == |records|;
  }

  lemma DividedStep(keys: seq<Id>, rest: map<Id, Record>, records: map<Id, Record>, k: Id)
    requires Divided(keys, rest, records) && Oldest(rest, k)
    ensures Divided(keys + [k], rest - {k}, records)
  {
    RemoveOne(rest, k);
    assert forall j :: j in keys + [k] <==> j in keys || j == k;
  }

  lemma DividedEnds(keys: seq<Id>, records: map<Id, Record>)
    requires Divided(keys, map[], records)
    ensures ByAge(keys, records)
  {
  }

  method KeysByAge(records: map<Id, Record>) returns (keys: seq<Id>)
    ensures ByAge(keys, records)
  {
    hide ByAge, Divided;
    keys := [];
    var rest := records;
    DividedStarts(records);
    while rest != map[]
      invariant Divided(keys, rest, records)
      decreases |rest|
    {
      OldestExists(rest);
      var k :| k in rest && forall j :: j in rest ==> rest[k].created <= rest[j].created;
      RemoveOne(rest, k);
      DividedStep(keys, rest, records, k);
      keys, rest := keys + [k], rest - {k};
    }
    DividedEnds(keys, records);
  }

  lemma NoOverflow(records: map<Id, Record>, maxRecords: nat)
    requires |records| <= maxRecords
    ensures EvictionAllowed(records, maxRecords, {})
  {
  }

  lemma DropOneMore(records: map<Id, Record>, dropped: set<Id>, k: Id)
    ensures records - dropped - {k} == records - (dropped + {k})
  {
  }

  class InMemoryStatusStore {
    var records: map<Id, Record>
    var maxRecords: nat
    var expiredTotal: nat
    const metrics: Metrics

    function Model(): Store
      reads this, metrics
    {
      Store(records, maxRecords, expiredTotal, metrics.Value())
    }

    constructor (maxRecords: nat, metrics: Metrics)
      ensures this.metrics == metrics
      ensures Model() == EmptyStore(maxRecords).(counters := metrics.Value())
    {
      records, expiredTotal := map[], 0;
      this.maxRecords := maxRecords;
      this.metrics := metrics;
    }

    method PutReceived(record: Record)
      modifies this, metrics
      ensures exists victim :: PutAllowed(old(Model()), record, victim) && Model() == Put(old(Model()), record, victim)
    {
      ghost var before, victim := Model(), record.id;
      if record.id in records {
        assert PutAllowed(before, record, victim) && Model() == Put(before, record, victim);
        return;
      }
      if |records| >= maxRecords {
        if records != map[] {
          OldestExists(records);
          var k :| k in records && forall j :: j in records ==> records[k].created <= records[j].created;
          victim := k;
          records := records - {k};
        }
      }
      records := records[record.id := record];
      metrics.StatusRecordCreated();
      assert PutAllowed(before, record, victim) && Model() == Put(before, record, victim);
    }

    method SetRecipientMetadata(id: Id, key: KeyId, domains: seq<string>, count: nat, now: Instant)
      modifies this
      ensures Model() == SetMetadata(old(Model()), id, key, domains, count, now)
    {
      if id in records {
        var record := records[id];
        if record.owner == key && !Expired(record, now) {
          records := records[id := record.(domains := domains, count := count, updated := now)];
        }
      }
    }

    method UpdateRecord(id: Id, key: KeyId, update: Update, now: Instant)
      modifies this, metrics
      ensures Model() == UpdateStatus(old(Model()), id, key, update, now)
    {
      if id in records {
        var record := records[id];
        if record.owner != key || Expired(record, now) || Terminal(record.status) {
          return;
        }
        record := record.(status := update.status, code := update.code);
        if update.message.Some? {
          record := record.(message := update.message);
        }
        records := records[id := record.(updated := now)];
        metrics.StatusTransitioned(record.status, record.code);
      }
    }

    // An undisturbed get: both phases run back to back, the second reading a later clock.
    method Get(id: Id, key: KeyId, now: Instant, later: Instant) returns (found: Option<Record>)
      requires now <= later
      modifies this, metrics
      ensures found == Found(old(Model()), id, key, now)
      ensures Model() == AfterGet(old(Model()), id, key, now)
    {
      var phase := GetReadPhase(id, key, now);
      if phase.Answer? {
        return phase.found;
      }
      GetWritePhase(id, later);
      found := None;
    }

    method GetReadPhase(id: Id, key: KeyId, now: Instant) returns (phase: ReadPhase)
      ensures phase == Read(Model(), id, key, now)
    {
      if id !in records {
        return Answer(None);
      }
      var record := records[id];
      if record.owner != key {
        return Answer(None);
      }
      if !Expired(record, now) {
        return Answer(Some(record));
      }
      phase := NeedsWrite;
    }

    method GetWritePhase(id: Id, now: Instant)
      modifies this, metrics
      ensures Model() == Write(old(Model()), id, now)
    {
      if id in records && Expired(records[id], now) {
        records := records - {id};
        expiredTotal := expiredTotal + 1;
        metrics.StatusRecordsExpired(1);
      }
    }

    method ExpireOldRecords(now: Instant)
      modifies this, metrics
      ensures exists victims :: SweepAllowed(old(Model()), now, victims) && Model() == Sweep(old(Model()), now, victims)
    {
      hide EvictionAllowed, Live;
      ghost var start := Model();
      var before := |records|;
      RetainLive(now);
      LiveIsSmaller(start.records, now);
      var removed := before - |records|;
      if removed > 0 {
        expiredTotal := expiredTotal + removed;
        metrics.StatusRecordsExpired(removed);
      }
      ghost var victims := EvictOverflow();
      assert SweepAllowed(start, now, victims) && Model() == Sweep(start, now, victims);
    }

    method RetainLive(now: Instant)
      modifies this`records
      ensures records == Live(old(records), now)
    {
      records := map k | k in records && records[k].expires > now :: records[k];
    }

    method EvictOverflow() returns (ghost victims: set<Id>)
      modifies this`records
      ensures EvictionAllowed(old(records), maxRecords, victims) && records == old(records) - victims
    {
      hide EvictionAllowed, PrefixSet;
      victims := {};
      ghost var live := records;
      if |records| <= maxRecords {
        NoOverflow(records, maxRecords);
        return;
      }
      var excess := |records| - maxRecords;
      var keysByAge := KeysByAge(records);
      OldestPrefix(live, keysByAge, maxRecords);
      PrefixSetStep(keysByAge);
      for i := 0 to excess
        invariant victims == PrefixSet(keysByAge, i)
        invariant records == live - victims
      {
        DropOneMore(live, victims, keysByAge[i]);
        records := records - {keysByAge[i]};
        victims := victims + {keysByAge[i]};
      }
    }

    method RecordCount() returns (count: nat)
      modifies metrics
      ensures count == |records| && Model() == Count(old(Model()))
    {
      count := |records|;
      metrics.StatusSetCurrent(count);
    }

    method ReloadConfig(maxRecords: nat)
      modifies this
      ensures Model() == Reload(old(Model()), maxRecords)
    {
      this.maxRecords := maxRecords;
    }
  }
}
