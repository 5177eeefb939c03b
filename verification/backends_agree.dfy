// The in-memory and the SQLite store look the same to a client, although they delete records at
// different times.
module BackendsAgree {
  import opened Prelude
  import opened Statuses
  import opened TextOrder
  import opened Timestamps
  import opened MemoryStores
  import opened MemoryRuns
  import Sql = SqliteStores

  // What both backends promise to report of a record. The message and the time of the last
  // update are not part of it: see `MessagesAgree` and `Sql.SetRowMetadata`.
  datatype View = View(owner: KeyId, status: Status, code: Option<ErrorCode>, domains: seq<string>, count: nat,
                       created: Instant, expires: Instant)

  function ViewOf(r: Record): View {
    View(r.owner, r.status, r.code, r.domains, r.count, r.created, r.expires)
  }

  // Parsing a stored timestamp: the instant whose text it is.
  ghost function InstantOf(text: string): Instant {
    if exists n: nat :: InRange(n) && Text(n) == text
    then var n: nat :| InRange(n) && Text(n) == text; n
    else 0
  }

  ghost function ViewOfRow(row: Sql.Row): View {
    View(row.owner, row.status, row.code, row.domains, row.count, InstantOf(row.created), InstantOf(row.expires))
  }

  lemma ParseInvertsPrint(n: nat)
    requires InRange(n)
    ensures InstantOf(Text(n)) == n
  {
    var m := InstantOf(Text(n));
    StringOrderIsTimeOrder(m, n);
  }

  // --------------------------------------------------------------------------
  // Runs
  // --------------------------------------------------------------------------

  predicate ClientOp(op: Op) {
    op.PutOp? || op.MetadataOp? || op.UpdateOp? || op.GetOp? || op.SweepOp?
  }

  predicate WellStamped(op: Op) {
    ClientOp(op) && if op.PutOp? then Sql.Stampable(op.record) else InRange(op.now)
  }

  function SqlStep(t: Sql.Table, op: Op): Sql.Table
    requires WellStamped(op)
  {
    match op
    case PutOp(r, _) => Sql.PutRow(t, r, {})
    case MetadataOp(id, key, domains, count, _) => Sql.SetRowMetadata(t, id, key, domains, count)
    case UpdateOp(id, key, u, now) => Sql.UpdateRow(t, id, key, u, now)
    case GetOp(id, key, now) => Sql.AfterSelect(t, id, key, now)
    case SweepOp(now, _) => Sql.SweepRows(t, now, {})
  }

  // Evicting nothing is what the statement does when the table is below its limit.
  predicate SqlEvictsNothing(t: Sql.Table, op: Op)
    requires WellStamped(op)
  {
    match op
    case PutOp(_, _) => Sql.EvictAllowed(t, {}) && Sql.Excess(t) == 0
    case SweepOp(now, _) => Sql.EvictAllowed(Sql.DeleteExpired(t, now), {})
      && Sql.Excess(Sql.DeleteExpired(t, now)) == 0
    case _ => true
  }

  function Seen(found: Option<Record>): Option<View> {
    if found.Some? then Some(ViewOf(found.value)) else None
  }

  // The answers of the lookups of a run, as clients see them.
  function MemoryAnswers(s: Store, ops: seq<Op>): seq<Option<View>>
    decreases |ops|
  {
    if ops == [] then []
    else
      (if ops[0].GetOp? then [Seen(Found(s, ops[0].id, ops[0].key, ops[0].now))] else [])
      + MemoryAnswers(Step(s, ops[0]), ops[1..])
  }

  ghost function SeenRow(found: Option<Sql.Row>): Option<View> {
    if found.Some? then Some(ViewOfRow(found.value)) else None
  }

  ghost function SqlAnswers(t: Sql.Table, ops: seq<Op>): seq<Option<View>>
    requires forall i :: 0 <= i < |ops| ==> WellStamped(ops[i])
    decreases |ops|
  {
    if ops == [] then []
    else
      assert WellStamped(ops[0]);
      (if ops[0].GetOp? then [SeenRow(Sql.SelectRow(t, ops[0].id, ops[0].key, ops[0].now))] else [])
      + SqlAnswers(SqlStep(t, ops[0]), ops[1..])
  }

  // A run with fresh ids, a clock that does not go back, no operation at the instant at which
  // any record expires, and fewer records than the limit at every put and sweep.
  ghost predicate Ordinary(s: Store, ops: seq<Op>, used: set<Id>, expiries: set<Instant>, clock: Instant)
    decreases |ops|
  {
    ops == [] ||
    (var op := ops[0];
     && WellStamped(op) && Allowed(s, op)
     && (op.PutOp? ==> op.record.id !in used)
     && (!op.PutOp? ==> clock <= op.now && op.now !in expiries)
     && (op.PutOp? || op.SweepOp? ==> |s.records| < s.maxRecords)
     && Ordinary(Step(s, op), ops[1..],
                 if op.PutOp? then used + {op.record.id} else used,
                 if op.PutOp? then expiries + {op.record.expires} else expiries,
                 if op.PutOp? then clock else op.now))
  }

  // --------------------------------------------------------------------------
  // The simulation
  // --------------------------------------------------------------------------

  ghost predicate SameLifetime(r: Record, row: Sql.Row) {
    && Sql.Stampable(r) && row.owner == r.owner
    && row.created == Text(r.created) && row.expires == Text(r.expires)
  }

  ghost predicate SameContent(r: Record, row: Sql.Row) {
    row.status == r.status && row.code == r.code && row.domains == r.domains && row.count == r.count
  }

  // One id: the table holds it only if memory does; if the table lacks it, or its content
  // has drifted, the record has expired.
  ghost predicate MirrorsId(s: Store, t: Sql.Table, k: Id, clock: Instant) {
    && (k in t.rows ==> k in s.records && SameLifetime(s.records[k], t.rows[k]))
    && (k in s.records ==> Sql.Stampable(s.records[k]))
    && (k in s.records && s.records[k].expires > clock ==> k in t.rows && SameContent(s.records[k], t.rows[k]))
  }

  ghost predicate Mirrors(s: Store, t: Sql.Table, clock: Instant) {
    t.maxRecords == s.maxRecords && forall k :: MirrorsId(s, t, k, clock)
  }

  lemma MirrorsLater(s: Store, t: Sql.Table, clock: Instant, later: Instant)
    requires Mirrors(s, t, clock) && clock <= later
    ensures Mirrors(s, t, later)
  {
    forall k
      ensures MirrorsId(s, t, k, later)
    {
      assert MirrorsId(s, t, k, clock);
    }
  }

  // A step that touches one id only has to be checked there.
  lemma MirrorsElsewhere(s: Store, t: Sql.Table, s': Store, t': Sql.Table, id: Id, clock: Instant)
    requires Mirrors(s, t, clock) && s'.maxRecords == s.maxRecords && t'.maxRecords == t.maxRecords
    requires s'.records - {id} == s.records - {id} && t'.rows - {id} == t.rows - {id}
    requires MirrorsId(s', t', id, clock)
    ensures Mirrors(s', t', clock)
  {
    forall k
      ensures MirrorsId(s', t', k, clock)
    {
      if k != id {
        assert MirrorsId(s, t, k, clock);
        assert k in s'.records <==> k in s'.records - {id};
        assert k in s.records <==> k in s.records - {id};
        assert k in t'.rows <==> k in t'.rows - {id};
        assert k in t.rows <==> k in t.rows - {id};
        assert k in s.records ==> (s'.records - {id})[k] == (s.records - {id})[k];
        assert k in t.rows ==> (t'.rows - {id})[k] == (t.rows - {id})[k];
      }
    }
  }

  lemma MirrorsSize(s: Store, t: Sql.Table, clock: Instant)
    requires Mirrors(s, t, clock)
    ensures |t.rows| <= |s.records|
  {
    forall k | k in t.rows
      ensures k in s.records
    {
      assert MirrorsId(s, t, k, clock);
    }
    SubsetSize(t.rows.Keys, s.records.Keys);
    assert |t.rows| == |t.rows.Keys| && |s.records| == |s.records.Keys|;
  }

  // On mirrored records the text test of the table is the test on instants.
  lemma TextTest(r: Record, row: Sql.Row, now: Instant)
    requires SameLifetime(r, row) && InRange(now)
    ensures Sql.Unexpired(row, now) <==> r.expires > now
  {
    StringOrderIsTimeOrder(now, r.expires);
  }

  lemma SameAnswer(s: Store, t: Sql.Table, id: Id, key: KeyId, now: Instant)
    requires MirrorsId(s, t, id, now) && InRange(now)
    requires id in s.records ==> s.records[id].expires != now
    ensures Seen(Found(s, id, key, now)) == SeenRow(Sql.SelectRow(t, id, key, now))
  {
    if id in t.rows {
      TextTest(s.records[id], t.rows[id], now);
      ParseInvertsPrint(s.records[id].created);
      ParseInvertsPrint(s.records[id].expires);
    }
  }

  lemma LookupMirrors(s: Store, t: Sql.Table, id: Id, key: KeyId, now: Instant)
    requires Mirrors(s, t, now) && InRange(now)
    requires id in s.records ==> s.records[id].expires != now
    ensures Mirrors(AfterGet(s, id, key, now), Sql.AfterSelect(t, id, key, now), now)
  {
    assert MirrorsId(s, t, id, now);
    if id in t.rows {
      TextTest(s.records[id], t.rows[id], now);
    }
    hide Text, Before, Sql.Unexpired, Mirrors, InRange;
    MirrorsElsewhere(s, t, AfterGet(s, id, key, now), Sql.AfterSelect(t, id, key, now), id, now);
  }

  lemma UpdateMirrorsId(s: Store, t: Sql.Table, id: Id, key: KeyId, u: Update, now: Instant)
    requires MirrorsId(s, t, id, now) && InRange(now)
    requires id in s.records ==> s.records[id].expires != now
    ensures Accepts(s, id, key, now) <==> Sql.RowAccepts(t, id, key, now)
    ensures MirrorsId(UpdateStatus(s, id, key, u, now), Sql.UpdateRow(t, id, key, u, now), id, now)
  {
    if id in t.rows {
      TextTest(s.records[id], t.rows[id], now);
    }
    hide Text, Before, Sql.Unexpired;
  }

  lemma UpdateElsewhere(s: Store, id: Id, key: KeyId, u: Update, now: Instant)
    ensures UpdateStatus(s, id, key, u, now).records - {id} == s.records - {id}
    ensures UpdateStatus(s, id, key, u, now).maxRecords == s.maxRecords
  {
  }

  lemma UpdateRowElsewhere(t: Sql.Table, id: Id, key: KeyId, u: Update, now: Instant)
    requires InRange(now)
    ensures Sql.UpdateRow(t, id, key, u, now).rows - {id} == t.rows - {id}
    ensures Sql.UpdateRow(t, id, key, u, now).maxRecords == t.maxRecords
  {
    hide Text, Sql.RowAccepts;
  }

  lemma UpdateMirrors(s: Store, t: Sql.Table, id: Id, key: KeyId, u: Update, now: Instant)
    requires Mirrors(s, t, now) && InRange(now)
    requires id in s.records ==> s.records[id].expires != now
    ensures Accepts(s, id, key, now) <==> Sql.RowAccepts(t, id, key, now)
    ensures Mirrors(UpdateStatus(s, id, key, u, now), Sql.UpdateRow(t, id, key, u, now), now)
  {
    assert MirrorsId(s, t, id, now);
    UpdateMirrorsId(s, t, id, key, u, now);
    UpdateElsewhere(s, id, key, u, now);
    UpdateRowElsewhere(t, id, key, u, now);
    hide *;
    MirrorsElsewhere(s, t, UpdateStatus(s, id, key, u, now), Sql.UpdateRow(t, id, key, u, now), id, now);
  }

  lemma MetadataMirrors(s: Store, t: Sql.Table, id: Id, key: KeyId, domains: seq<string>, count: nat, now: Instant)
    requires Mirrors(s, t, now) && InRange(now)
    ensures Mirrors(SetMetadata(s, id, key, domains, count, now), Sql.SetRowMetadata(t, id, key, domains, count), now)
  {
    assert MirrorsId(s, t, id, now);
    hide Text, Before, Mirrors;
    MirrorsElsewhere(s, t, SetMetadata(s, id, key, domains, count, now),
                     Sql.SetRowMetadata(t, id, key, domains, count), id, now);
  }

  lemma EvictingNobody(t: Sql.Table)
    requires |t.rows| < t.maxRecords
    ensures Sql.EvictAllowed(t, {}) && Sql.Excess(t) == 0 && Sql.Evict(t, {}) == t
  {
    assert t.rows - {} == t.rows;
  }

  lemma PutTogether(s: Store, t: Sql.Table, clock: Instant, r: Record, victim: Id)
    requires MirrorsId(s, t, r.id, clock) && Sql.Stampable(r) && r.id !in s.records && |s.records| < s.maxRecords
    requires Sql.Evict(t, {}) == t
    ensures var s', t' := Put(s, r, victim), Sql.PutRow(t, r, {});
            && MirrorsId(s', t', r.id, clock) && s'.maxRecords == s.maxRecords && t'.maxRecords == t.maxRecords
            && s'.records - {r.id} == s.records - {r.id} && t'.rows - {r.id} == t.rows - {r.id}
  {
    hide Text, Before, Sql.Evict;
  }

  lemma PutMirrors(s: Store, t: Sql.Table, clock: Instant, r: Record, victim: Id)
    requires Mirrors(s, t, clock) && Sql.Stampable(r) && r.id !in s.records && |s.records| < s.maxRecords
    ensures SqlEvictsNothing(t, PutOp(r, victim))
    ensures Mirrors(Put(s, r, victim), Sql.PutRow(t, r, {}), clock)
  {
    hide MirrorsId, Put, Sql.PutRow, Sql.Evict, Sql.EvictAllowed, Sql.Excess;
    MirrorsSize(s, t, clock);
    EvictingNobody(t);
    assert MirrorsId(s, t, r.id, clock);
    PutTogether(s, t, clock, r, victim);
    MirrorsElsewhere(s, t, Put(s, r, victim), Sql.PutRow(t, r, {}), r.id, clock);
  }

  lemma LiveMirrors(s: Store, t: Sql.Table, s': Store, k: Id, now: Instant)
    requires MirrorsId(s, t, k, now) && InRange(now) && s'.records == Live(s.records, now)
    ensures MirrorsId(s', Sql.DeleteExpired(t, now), k, now)
  {
    hide Text, Before, Sql.Unexpired;
    if k in t.rows {
      TextTest(s.records[k], t.rows[k], now);
    }
  }

  lemma SweepTogether(s: Store, t: Sql.Table, now: Instant, victims: set<Id>)
    requires SweepAllowed(s, now, victims) && |t.rows| <= |s.records| < s.maxRecords == t.maxRecords && InRange(now)
    ensures var s', d := Sweep(s, now, victims), Sql.DeleteExpired(t, now);
            && s'.records == Live(s.records, now) && s'.maxRecords == s.maxRecords
            && |d.rows| < d.maxRecords == s.maxRecords
  {
    hide Text, Before, Sql.Unexpired, EvictionAllowed, Live;
    SweepKeepsYoungest(s, now, victims);
    LiveIsSmaller(s.records, now);
    Sql.KeptIsSmaller(t.rows, Sql.DeleteExpired(t, now).rows);
  }

  lemma SweepMirrors(s: Store, t: Sql.Table, now: Instant, victims: set<Id>)
    requires Mirrors(s, t, now) && InRange(now) && SweepAllowed(s, now, victims) && |s.records| < s.maxRecords
    ensures SqlEvictsNothing(t, SweepOp(now, victims))
    ensures Mirrors(Sweep(s, now, victims), Sql.SweepRows(t, now, {}), now)
  {
    hide MirrorsId, Text, Before, Sql.Evict, Sql.EvictAllowed, Sql.Excess, Sweep, Sql.DeleteExpired, EvictionAllowed,
      Live;
    MirrorsSize(s, t, now);
    SweepTogether(s, t, now, victims);
    EvictingNobody(Sql.DeleteExpired(t, now));
    forall k
      ensures MirrorsId(Sweep(s, now, victims), Sql.DeleteExpired(t, now), k, now)
    {
      assert MirrorsId(s, t, k, now);
      LiveMirrors(s, t, Sweep(s, now, victims), k, now);
    }
  }

  lemma StepMirrors(s: Store, t: Sql.Table, clock: Instant, op: Op)
    requires Mirrors(s, t, clock) && WellStamped(op) && Allowed(s, op)
    requires op.PutOp? ==> op.record.id !in s.records
    requires op.PutOp? || op.SweepOp? ==> |s.records| < s.maxRecords
    requires !op.PutOp? ==> clock <= op.now && forall k :: k in s.records ==> s.records[k].expires != op.now
    ensures SqlEvictsNothing(t, op)
    ensures Mirrors(Step(s, op), SqlStep(t, op), if op.PutOp? then clock else op.now)
    ensures op.GetOp? ==> Seen(Found(s, op.id, op.key, op.now)) == SeenRow(Sql.SelectRow(t, op.id, op.key, op.now))
    ensures op.UpdateOp? ==> (Accepts(s, op.id, op.key, op.now) <==> Sql.RowAccepts(t, op.id, op.key, op.now))
  {
    if !op.PutOp? {
      MirrorsLater(s, t, clock, op.now);
    }
    if op.GetOp? {
      assert MirrorsId(s, t, op.id, op.now);
    }
    hide Mirrors;
    match op
    case PutOp(r, victim) => PutMirrors(s, t, clock, r, victim);
    case MetadataOp(id, key, domains, count, now) => MetadataMirrors(s, t, id, key, domains, count, now);
    case UpdateOp(id, key, u, now) => UpdateMirrors(s, t, id, key, u, now);
    case GetOp(id, key, now) => SameAnswer(s, t, id, key, now); LookupMirrors(s, t, id, key, now);
    case SweepOp(now, victims) => SweepMirrors(s, t, now, victims);
  }

  // The ids used and the expiry instants handed out so far.
  ghost predicate Known(s: Store, used: set<Id>, expiries: set<Instant>) {
    s.records.Keys <= used && forall k :: k in s.records ==> s.records[k].expires in expiries
  }

  lemma StepKeepsExpiries(s: Store, op: Op)
    requires Allowed(s, op)
    ensures forall k :: k in Step(s, op).records ==>
      || (op.PutOp? && k == op.record.id && (k in s.records || Step(s, op).records[k] == op.record))
      || (k in s.records && Step(s, op).records[k].expires == s.records[k].expires)
  {
  }

  lemma StepKeepsKnown(s: Store, op: Op, used: set<Id>, expiries: set<Instant>)
    requires Allowed(s, op) && Known(s, used, expiries)
    ensures Known(Step(s, op),
                  if op.PutOp? then used + {op.record.id} else used,
                  if op.PutOp? then expiries + {op.record.expires} else expiries)
  {
    StepKeepsExpiries(s, op);
    hide Step, Allowed;
  }

  lemma OrdinaryStep(s: Store, t: Sql.Table, op: Op, used: set<Id>, expiries: set<Instant>, clock: Instant)
    requires Mirrors(s, t, clock) && Known(s, used, expiries) && WellStamped(op) && Allowed(s, op)
    requires op.PutOp? ==> op.record.id !in used
    requires !op.PutOp? ==> clock <= op.now && op.now !in expiries
    requires op.PutOp? || op.SweepOp? ==> |s.records| < s.maxRecords
    ensures SqlEvictsNothing(t, op) && Mirrors(Step(s, op), SqlStep(t, op), if op.PutOp? then clock else op.now)
    ensures op.GetOp? ==> Seen(Found(s, op.id, op.key, op.now)) == SeenRow(Sql.SelectRow(t, op.id, op.key, op.now))
  {
    hide Mirrors, SqlStep, Step, SqlEvictsNothing, Seen, SeenRow, Allowed, Found, Sql.SelectRow, WellStamped;
    StepMirrors(s, t, clock, op);
  }

  ghost predicate NeverEvicts(t: Sql.Table, ops: seq<Op>)
    requires forall i :: 0 <= i < |ops| ==> WellStamped(ops[i])
    decreases |ops|
  {
    ops == [] || (SqlEvictsNothing(t, ops[0]) && NeverEvicts(SqlStep(t, ops[0]), ops[1..]))
  }

  // Over every ordinary run both backends give the same answer to every lookup, and SQLite evicts nothing.
  lemma {:induction false} BackendsGiveSameAnswers(s: Store, t: Sql.Table, ops: seq<Op>, used: set<Id>,
                                                   expiries: set<Instant>, clock: Instant)
    requires Mirrors(s, t, clock) && Ordinary(s, ops, used, expiries, clock) && Known(s, used, expiries)
    ensures forall i :: 0 <= i < |ops| ==> WellStamped(ops[i])
    ensures MemoryAnswers(s, ops) == SqlAnswers(t, ops)
    ensures NeverEvicts(t, ops)
    decreases |ops|
  {
    hide Mirrors, Known, SqlStep, Step, SqlEvictsNothing, Seen, SeenRow, Allowed, Found, Sql.SelectRow;
    if ops != [] {
      var op := ops[0];
      OrdinaryStep(s, t, op, used, expiries, clock);
      StepKeepsKnown(s, op, used, expiries);
      BackendsGiveSameAnswers(Step(s, op), SqlStep(t, op), ops[1..],
                              if op.PutOp? then used + {op.record.id} else used,
                              if op.PutOp? then expiries + {op.record.expires} else expiries,
                              if op.PutOp? then clock else op.now);
    }
  }

  lemma SameAnswersFromStart(maxRecords: nat, ops: seq<Op>, start: Instant)
    requires Ordinary(EmptyStore(maxRecords), ops, {}, {}, start)
    ensures forall i :: 0 <= i < |ops| ==> WellStamped(ops[i])
    ensures MemoryAnswers(EmptyStore(maxRecords), ops) == SqlAnswers(Sql.EmptyTable(maxRecords), ops)
  {
    BackendsGiveSameAnswers(EmptyStore(maxRecords), Sql.EmptyTable(maxRecords), ops, {}, {}, start);
  }

  // --------------------------------------------------------------------------
  // Where they differ
  // --------------------------------------------------------------------------

  // At the exact instant of expiry memory still serves the record and SQLite does not.
  lemma AnswersDifferOnlyAtExpiry(r: Record, row: Sql.Row, id: Id, key: KeyId, now: Instant, s: Store, t: Sql.Table)
    requires InRange(now) && SameLifetime(r, row) && SameContent(r, row)
    requires id in s.records && s.records[id] == r && id in t.rows && t.rows[id] == row
    ensures Seen(Found(s, id, key, now)) != SeenRow(Sql.SelectRow(t, id, key, now)) <==>
      r.owner == key && r.expires == now
  {
    TextTest(r, row, now);
    ParseInvertsPrint(r.created);
    ParseInvertsPrint(r.expires);
  }

  // An update without a message keeps the old message in memory and erases it in SQLite.
  lemma MessagesAgree(s: Store, t: Sql.Table, id: Id, key: KeyId, u: Update, now: Instant)
    requires InRange(now) && Accepts(s, id, key, now) && Sql.RowAccepts(t, id, key, now)
    ensures UpdateStatus(s, id, key, u, now).records[id].message == Sql.UpdateRow(t, id, key, u, now).rows[id].message
            <==> u.message.Some? || s.records[id].message.None?
  {
  }
}
