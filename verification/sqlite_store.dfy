// The SQLite status store (status_sqlite.rs): the effect of each SQL statement on the table.
//
// Timestamps are kept and compared as text, exactly as the SQL does. SQLite itself, and failures
// of its calls, are outside the model.
module SqliteStores {
  import opened Prelude
  import opened Statuses
  import opened MemoryStores
  import opened TextOrder
  import opened Timestamps

  datatype Row = Row(
    owner: KeyId, status: Status, code: Option<ErrorCode>, message: Option<string>,
    domains: seq<string>, count: nat, created: string, updated: string, expires: string)

  datatype Table = Table(rows: map<Id, Row>, maxRecords: nat, counters: Counters)

  function EmptyTable(maxRecords: nat): Table {
    Table(map[], maxRecords, Counters(0, multiset{}, 0))
  }

  predicate Stampable(r: Record) {
    InRange(r.created) && InRange(r.updated) && InRange(r.expires)
  }

  function RowOf(r: Record): Row
    requires Stampable(r)
  {
    Row(r.owner, r.status, r.code, r.message, r.domains, r.count, Text(r.created), Text(r.updated), Text(r.expires))
  }

  // `evict_if_needed`: from the limit on, the oldest rows go, at least one of them.
  function Excess(t: Table): nat {
    if |t.rows| >= t.maxRecords then Min(Max(|t.rows| - t.maxRecords, 1), |t.rows|) else 0
  }

  // ORDER BY created_at ASC LIMIT n; rows with equal text may come in any order.
  predicate FirstRows(rows: map<Id, Row>, n: nat, victims: set<Id>) {
    && victims <= rows.Keys && |victims| == n
    && (forall v, k :: v in victims && k in rows && k !in victims ==> !Before(rows[k].created, rows[v].created))
  }

  predicate EvictAllowed(t: Table, victims: set<Id>) {
    FirstRows(t.rows, Excess(t), victims)
  }

  function Evict(t: Table, victims: set<Id>): Table {
    t.(rows := t.rows - victims)
  }

  // INSERT OR IGNORE after the eviction.
  function PutRow(t: Table, r: Record, victims: set<Id>): Table
    requires Stampable(r)
  {
    var e := Evict(t, victims);
    if r.id in e.rows then e else e.(rows := e.rows[r.id := RowOf(r)], counters := Created(e.counters))
  }

  // This UPDATE tests neither the expiry nor the status, and leaves updated_at alone.
  function SetRowMetadata(t: Table, id: Id, key: KeyId, domains: seq<string>, count: nat): Table {
    if id in t.rows && t.rows[id].owner == key
    then t.(rows := t.rows[id := t.rows[id].(domains := domains, count := count)])
    else t
  }

  // expires_at > now, on text.
  predicate Unexpired(row: Row, now: Instant)
    requires InRange(now)
  {
    Before(Text(now), row.expires)
  }

  predicate RowAccepts(t: Table, id: Id, key: KeyId, now: Instant)
    requires InRange(now)
  {
    id in t.rows && t.rows[id].owner == key && Unexpired(t.rows[id], now) && !Terminal(t.rows[id].status)
  }

  // The message is overwritten even when the update carries none.
  function UpdateRow(t: Table, id: Id, key: KeyId, u: Update, now: Instant): Table
    requires InRange(now)
  {
    if RowAccepts(t, id, key, now)
    then t.(rows := t.rows[id := t.rows[id].(status := u.status, code := u.code, message := u.message,
                                             updated := Text(now))],
            counters := Transitioned(t.counters, u.status, u.code))
    else t
  }

  function SelectRow(t: Table, id: Id, key: KeyId, now: Instant): Option<Row>
    requires InRange(now)
  {
    if id in t.rows && t.rows[id].owner == key && Unexpired(t.rows[id], now) then Some(t.rows[id]) else None
  }

  // A miss deletes the row when it is expired, whoever owns it.
  function AfterSelect(t: Table, id: Id, key: KeyId, now: Instant): Table
    requires InRange(now)
  {
    if SelectRow(t, id, key, now).None? && id in t.rows && !Unexpired(t.rows[id], now)
    then t.(rows := t.rows - {id}, counters := RecordsExpired(t.counters, 1))
    else t
  }

  lemma KeptIsSmaller(rows: map<Id, Row>, kept: map<Id, Row>)
    requires kept.Keys <= rows.Keys
    ensures |kept| <= |rows|
  {
    SubsetSize(kept.Keys, rows.Keys);
    assert |kept| == |kept.Keys| && |rows| == |rows.Keys|;
  }

  function DeleteExpired(t: Table, now: Instant): Table
    requires InRange(now)
  {
    var kept := map k | k in t.rows && Unexpired(t.rows[k], now) :: t.rows[k];
    KeptIsSmaller(t.rows, kept);
    t.(rows := kept, counters := RecordsExpired(t.counters, |t.rows| - |kept|))
  }

  function SweepRows(t: Table, now: Instant, victims: set<Id>): Table
    requires InRange(now)
  {
    Evict(DeleteExpired(t, now), victims)
  }

  // --------------------------------------------------------------------------
  // What the text comparisons mean
  // --------------------------------------------------------------------------

  lemma UnexpiredMeansLater(r: Record, now: Instant)
    requires Stampable(r) && InRange(now)
    ensures Unexpired(RowOf(r), now) <==> r.expires > now
  {
    StringOrderIsTimeOrder(now, r.expires);
  }

  // Eviction by text drops the oldest records: none it drops is younger than one it keeps.
  lemma EvictionIsOldestFirst(t: Table, records: map<Id, Record>, victims: set<Id>)
    requires EvictAllowed(t, victims) && records.Keys == t.rows.Keys
    requires forall k :: k in records ==> Stampable(records[k]) && t.rows[k].created == Text(records[k].created)
    ensures forall v, k :: v in victims && k in records && k !in victims ==> records[v].created <= records[k].created
  {
    forall v, k | v in victims && k in records && k !in victims
      ensures records[v].created <= records[k].created
    {
      assert !Before(t.rows[k].created, t.rows[v].created);
      StringOrderIsTimeOrder(records[k].created, records[v].created);
    }
  }

  lemma RowsWithout(rows: map<Id, Row>, victims: set<Id>)
    requires victims <= rows.Keys
    ensures |rows - victims| == |rows| - |victims|
  {
    assert (rows - victims).Keys == rows.Keys - victims;
    SubsetSize(victims, rows.Keys);
    assert |(rows - victims).Keys| == |rows - victims| && |rows.Keys| == |rows|;
  }

  lemma RowsPlus(rows: map<Id, Row>, id: Id, row: Row)
    requires id !in rows
    ensures |rows[id := row]| == |rows| + 1
  {
    assert rows[id := row].Keys == rows.Keys + {id};
    assert |rows[id := row].Keys| == |rows[id := row]| && |rows.Keys| == |rows|;
  }

  // A put of a fresh id at or above the limit ends at the size it found, but at most one above
  // the limit; below the limit it adds its row.
  lemma PutRowSize(t: Table, r: Record, victims: set<Id>)
    requires Stampable(r) && EvictAllowed(t, victims) && r.id !in t.rows && t.maxRecords >= 1
    ensures |PutRow(t, r, victims).rows|
            == if |t.rows| < t.maxRecords then |t.rows| + 1 else Min(|t.rows|, t.maxRecords + 1)
  {
    RowsWithout(t.rows, victims);
    hide RowOf;
    RowsPlus(t.rows - victims, r.id, RowOf(r));
  }

  // A sweep evicts at exactly the limit too: then it ends one below.
  lemma SweepRowsSize(t: Table, now: Instant, victims: set<Id>)
    requires InRange(now) && EvictAllowed(DeleteExpired(t, now), victims) && t.maxRecords >= 1
    ensures var live := |DeleteExpired(t, now).rows|;
            |SweepRows(t, now, victims).rows| ==
            if live < t.maxRecords then live else if live == t.maxRecords then live - 1 else t.maxRecords
  {
    RowsWithout(DeleteExpired(t, now).rows, victims);
  }

  // --------------------------------------------------------------------------
  // What a lookup finds
  // --------------------------------------------------------------------------

  // A new row is found by its owner, and by nobody else, before the instant `ttlSeconds` after it was made.
  lemma RowLivesForItsTtl(t: Table, id: Id, owner: KeyId, ttlSeconds: nat, made: Instant, victims: set<Id>,
                          key: KeyId, now: Instant)
    requires Stampable(NewReceived(id, owner, ttlSeconds, made)) && InRange(now)
    requires id !in t.rows && EvictAllowed(t, victims)
    ensures var seen := SelectRow(PutRow(t, NewReceived(id, owner, ttlSeconds, made), victims), id, key, now);
            && (seen.Some? <==> key == owner && now < made + ttlSeconds * 1_000_000_000)
            && (seen.Some? ==>
                  seen.value == Row(owner, Received, None, Some("Submission received."), [], 0, Text(made), Text(made),
                                    Text(made + ttlSeconds * 1_000_000_000)))
  {
    hide Text, Before;
    UnexpiredMeansLater(NewReceived(id, owner, ttlSeconds, made), now);
  }

  // A lookup finds the owner's row before its expiry. If it finds nothing it deletes the row from the expiry on,
  // whoever owns it, counts that, and touches no other.
  lemma RowLookupContract(t: Table, id: Id, key: KeyId, expires: Instant, now: Instant)
    requires InRange(expires) && InRange(now) && (id in t.rows ==> t.rows[id].expires == Text(expires))
    ensures var seen, t' := SelectRow(t, id, key, now), AfterSelect(t, id, key, now);
            && (seen.Some? <==> id in t.rows && t.rows[id].owner == key && now < expires)
            && (seen.Some? ==> seen.value == t.rows[id])
            && (id in t.rows && expires <= now ==>
                  && t'.rows == t.rows - {id}
                  && t'.counters == t.counters.(gauge := t.counters.gauge - 1, expired := t.counters.expired + 1))
            && (id !in t.rows || now < expires ==> t' == t)
  {
    hide Text, Before;
    StringOrderIsTimeOrder(now, expires);
  }

  // A put of an id that is already there still evicts first.
  lemma DuplicatePutEvicts(t: Table, r: Record, victims: set<Id>)
    requires Stampable(r) && EvictAllowed(t, victims) && r.id in t.rows && r.id !in victims
    ensures PutRow(t, r, victims).rows == t.rows - victims && PutRow(t, r, victims).counters == t.counters
  {
    hide FirstRows, Text;
  }

  // What an update leaves for a lookup. The message is the update's, even when it carries none.
  lemma RowUpdateIsVisible(t: Table, id: Id, key: KeyId, u: Update, expires: Instant, now: Instant, later: Instant)
    requires InRange(expires) && InRange(now) && InRange(later) && now <= later < expires
    requires id in t.rows && t.rows[id].expires == Text(expires)
    ensures var r, t' := t.rows[id], UpdateRow(t, id, key, u, now);
            if r.owner == key && (r.status.Received? || r.status.SubmissionStarted?)
            then SelectRow(t', id, key, later)
                 == Some(Row(r.owner, u.status, u.code, u.message, r.domains, r.count, r.created, Text(now), r.expires))
            else t' == t
  {
    hide Text, Before;
    StringOrderIsTimeOrder(now, expires);
    StringOrderIsTimeOrder(later, expires);
  }

  // --------------------------------------------------------------------------
  // The mutable store
  // --------------------------------------------------------------------------

  ghost predicate FirstRow(rows: map<Id, Row>, k: Id) {
    k in rows && forall j :: j in rows ==> !Before(rows[j].created, rows[k].created)
  }

  lemma {:induction false} FirstRowExists(rows: map<Id, Row>)
    requires rows != map[]
    ensures exists k :: FirstRow(rows, k)
    decreases |rows|
  {
    var k :| k in rows;
    var rest := rows - {k};
    assert rows == rest[k := rows[k]];
    RowsPlus(rest, k, rows[k]);
    if rest == map[] {
      BeforeIsIrreflexive(rows[k].created);
      assert FirstRow(rows, k);
    } else {
      FirstRowExists(rest);
      var o :| FirstRow(rest, o);
      BeforeIsIrreflexive(rows[k].created);
      if Before(rows[k].created, rows[o].created) {
        forall j | j in rows
          ensures !Before(rows[j].created, rows[k].created)
        {
          if Before(rows[j].created, rows[k].created) {
            BeforeIsTransitive(rows[j].created, rows[k].created, rows[o].created);
          }
        }
        assert FirstRow(rows, k);
      } else {
        assert FirstRow(rows, o);
      }
    }
  }

  lemma OneMoreFirstRow(rows: map<Id, Row>, n: nat, fewer: set<Id>, k: Id)
    requires FirstRows(rows, n, fewer) && FirstRow(rows - fewer, k)
    ensures FirstRows(rows, n + 1, fewer + {k})
  {
    hide Before;
    assert |fewer + {k}| == n + 1;
    forall v, j | v in fewer + {k} && j in rows && j !in fewer + {k}
      ensures !Before(rows[j].created, rows[v].created)
    {
      assert j in rows - fewer;
    }
  }

  // The selection of the DELETE statement always exists.
  lemma {:induction false} FirstRowsExist(rows: map<Id, Row>, n: nat)
    requires n <= |rows|
    ensures exists victims :: FirstRows(rows, n, victims)
  {
    if n == 0 {
      assert FirstRows(rows, 0, {});
    } else {
      FirstRowsExist(rows, n - 1);
      var fewer :| FirstRows(rows, n - 1, fewer);
      RowsWithout(rows, fewer);
      FirstRowExists(rows - fewer);
      var k :| FirstRow(rows - fewer, k);
      OneMoreFirstRow(rows, n - 1, fewer, k);
    }
  }

  class SqliteStatusStore {
    var rows: map<Id, Row>
    var maxRecords: nat
    const metrics: Metrics

    function Model(): Table
      reads this, metrics
    {
      Table(rows, maxRecords, metrics.Value())
    }

    constructor (maxRecords: nat, metrics: Metrics)
      ensures this.metrics == metrics && Model() == Table(map[], maxRecords, metrics.Value())
    {
      rows := map[];
      this.maxRecords := maxRecords;
      this.metrics := metrics;
    }

    method EvictIfNeeded() returns (ghost victims: set<Id>)
      modifies this`rows
      ensures EvictAllowed(old(Model()), victims) && Model() == Evict(old(Model()), victims)
    {
      victims := {};
      if |rows| >= maxRecords {
        var excess := Max(|rows| - maxRecords, 1);
        FirstRowsExist(rows, Min(excess, |rows|));
        var chosen :| chosen <= rows.Keys && FirstRows(rows, Min(excess, |rows|), chosen);
        rows := rows - chosen;
        victims := chosen;
      } else {
        assert rows - {} == rows;
      }
    }

    method PutReceived(record: Record)
      requires Stampable(record)
      modifies this, metrics
      ensures exists victims :: EvictAllowed(old(Model()), victims) && Model() == PutRow(old(Model()), record, victims)
    {
      ghost var victims := EvictIfNeeded();
      if record.id !in rows {
        rows := rows[record.id := RowOf(record)];
        metrics.StatusRecordCreated();
      }
    }

    method SetRecipientMetadata(id: Id, key: KeyId, domains: seq<string>, count: nat)
      modifies this
      ensures Model() == SetRowMetadata(old(Model()), id, key, domains, count)
    {
      if id in rows && rows[id].owner == key {
        rows := rows[id := rows[id].(domains := domains, count := count)];
      }
    }

    method UpdateRecord(id: Id, key: KeyId, update: Update, now: Instant)
      requires InRange(now)
      modifies this, metrics
      ensures Model() == UpdateRow(old(Model()), id, key, update, now)
    {
      if id in rows && rows[id].owner == key && Before(Text(now), rows[id].expires) && !Terminal(rows[id].status) {
        rows := rows[id := rows[id].(status := update.status, code := update.code, message := update.message,
                                     updated := Text(now))];
        metrics.StatusTransitioned(update.status, update.code);
      }
    }

    method Get(id: Id, key: KeyId, now: Instant) returns (found: Option<Row>)
      requires InRange(now)
      modifies this, metrics
      ensures found == SelectRow(old(Model()), id, key, now)
      ensures Model() == AfterSelect(old(Model()), id, key, now)
    {
      var text := Text(now);
      if id in rows && rows[id].owner == key && Before(text, rows[id].expires) {
        return Some(rows[id]);
      }
      if id in rows && !Before(text, rows[id].expires) {
        rows := rows - {id};
        metrics.StatusRecordsExpired(1);
      }
      found := None;
    }

    method ExpireOldRecords(now: Instant)
      requires InRange(now)
      modifies this, metrics
      ensures exists victims ::
        EvictAllowed(DeleteExpired(old(Model()), now), victims) && Model() == SweepRows(old(Model()), now, victims)
    {
      hide Text, Before;
      var text := Text(now);
      var before := |rows|;
      var kept := map k | k in rows && Before(text, rows[k].expires) :: rows[k];
      KeptIsSmaller(rows, kept);
      ghost var start := Model();
      assert kept == DeleteExpired(start, now).rows;
      rows := kept;
      metrics.StatusRecordsExpired(before - |rows|);
      assert Model() == DeleteExpired(start, now);
      ghost var victims := EvictIfNeeded();
    }
  }
}
