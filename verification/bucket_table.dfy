// The capacity-bounded table of buckets (rate_limit.rs, `LruMap`).
//
// Eviction is by insertion order, not by last use. `Table` is the value of the table and
// `LruMap` the mutable object; a capacity of 0 means unbounded.
module BucketTables {
  import opened Prelude
  import opened TokenBuckets

  datatype Table<K(==)> = Table(buckets: map<K, Bucket>, order: seq<K>, cap: nat)

  // The limits every bucket of one tier is created with.
  datatype Limits = Limits(perMinute: nat, burst: nat) {
    ghost function Rate(): real { perMinute as real / 60.0 }
  }

  datatype Checked<K(==)> = Checked(verdict: Verdict, table: Table<K>)

  function Empty<K(==)>(cap: nat): Table<K> {
    Table(map[], [], cap)
  }

  // A new key meeting a full table throws out the oldest entry.
  function MakeRoom<K(==)>(t: Table<K>, key: K): Table<K> {
    if t.cap > 0 && key !in t.buckets && |t.buckets| >= t.cap && t.order != []
    then Table(t.buckets - {t.order[0]}, t.order[1..], t.cap)
    else t
  }

  function GetOrInsert<K(==)>(t: Table<K>, key: K, limits: Limits, now: real): Table<K> {
    var t1 := MakeRoom(t, key);
    if key !in t1.buckets
    then Table(t1.buckets[key := Fresh(limits.perMinute, limits.burst, now)], t1.order + [key], t.cap)
    else t1
  }

  ghost predicate NoDuplicates<K>(s: seq<K>) {
    forall i, j :: 0 <= i < j < |s| ==> s[i] != s[j]
  }

  ghost predicate WellFormed<K>(t: Table<K>) {
    && NoDuplicates(t.order)
    && (forall k :: k in t.order ==> k in t.buckets)
    && (forall k :: k in t.buckets ==> k in t.order)
    && (t.cap > 0 ==> |t.order| <= t.cap)
    && (forall k :: k in t.buckets ==> t.buckets[k].Valid())
  }

  lemma {:induction false} OrderCountsTable<K>(order: seq<K>, keys: set<K>)
    requires NoDuplicates(order)
    requires (forall k :: k in order ==> k in keys) && (forall k :: k in keys ==> k in order)
    ensures |order| == |keys|
  {
    if order == [] {
      assert keys == {};
    } else {
      OrderCountsTable(order[1..], keys - {order[0]});
    }
  }

  lemma FirstIsUnique<K>(order: seq<K>)
    requires NoDuplicates(order) && order != []
    ensures NoDuplicates(order[1..])
    ensures forall k :: k in order[1..] <==> k in order && k != order[0]
  {
    assert order == [order[0]] + order[1..];
    assert order[0] !in order[1..];
  }

  lemma MakeRoomKeepsWellFormed<K>(t: Table<K>, key: K)
    requires WellFormed(t)
    ensures var t' := MakeRoom(t, key);
            && WellFormed(t') && t'.cap == t.cap && (key in t'.buckets <==> key in t.buckets)
            && (key in t.buckets ==> t' == t)
            && (key !in t.buckets && t.cap > 0 ==> |t'.order| < t.cap)
            && (forall k :: k in t'.buckets ==> k in t.buckets && t'.buckets[k] == t.buckets[k])
            && (forall k :: k in t.buckets && k !in t'.buckets ==>
                  t.order[0] == k && |t.order| == t.cap && key !in t.buckets)
  {
    hide NoDuplicates;
    OrderCountsTable(t.order, t.buckets.Keys);
    assert |t.buckets| == |t.buckets.Keys|;
    if t.order != [] {
      FirstIsUnique(t.order);
    }
  }

  lemma AppendKeepsWellFormed<K>(t: Table<K>, key: K, b: Bucket)
    requires WellFormed(t) && key !in t.buckets && (t.cap > 0 ==> |t.order| < t.cap) && b.Valid()
    ensures WellFormed(Table(t.buckets[key := b], t.order + [key], t.cap))
  {
    assert forall k :: k in t.order + [key] <==> k in t.order || k == key;
  }

  // The table stays a duplicate-free FIFO of exactly its keys and within capacity, the key asked
  // for is resident afterwards, and no other resident bucket changes: at most the
  // oldest one goes, and only when a new key meets a full table.
  lemma GetOrInsertKeepsWellFormed<K>(t: Table<K>, key: K, limits: Limits, now: real)
    requires WellFormed(t) && 1 <= limits.burst
    ensures var t' := GetOrInsert(t, key, limits, now);
            && WellFormed(t') && key in t'.buckets && t'.cap == t.cap
            && (key in t.buckets ==> t' == t)
            && (key !in t.buckets ==> t'.buckets[key] == Fresh(limits.perMinute, limits.burst, now))
            && (forall k :: k in t'.buckets && k != key ==> k in t.buckets && t'.buckets[k] == t.buckets[k])
            && (forall k :: k in t.buckets && k !in t'.buckets ==>
                  t.order[0] == k && |t.order| == t.cap && key !in t.buckets)
  {
    hide WellFormed, MakeRoom, Fresh;
    MakeRoomKeepsWellFormed(t, key);
    FreshIsValid(limits.perMinute, limits.burst, now);
    if key !in t.buckets {
      AppendKeepsWellFormed(MakeRoom(t, key), key, Fresh(limits.perMinute, limits.burst, now));
    }
  }

  // One `check_ip`: find or make the bucket, then take a token from it.
  function Check<K(==)>(t: Table<K>, key: K, limits: Limits, now: real): Checked<K>
    requires WellFormed(t) && 1 <= limits.burst
  {
    GetOrInsertKeepsWellFormed(t, key, limits, now);
    var t1 := GetOrInsert(t, key, limits, now);
    var a := TryConsume(t1.buckets[key], now);
    Checked(a.verdict, t1.(buckets := t1.buckets[key := a.bucket]))
  }

  lemma CheckKeepsWellFormed<K>(t: Table<K>, key: K, limits: Limits, now: real)
    requires WellFormed(t) && 1 <= limits.burst
    ensures var t' := Check(t, key, limits, now).table;
            && WellFormed(t') && key in t'.buckets && t'.cap == t.cap
            && t'.order == GetOrInsert(t, key, limits, now).order
            && (forall k :: k in t'.buckets && k != key ==> k in t.buckets && t'.buckets[k] == t.buckets[k])
  {
    GetOrInsertKeepsWellFormed(t, key, limits, now);
    TryConsumeKeepsValid(GetOrInsert(t, key, limits, now).buckets[key], now);
  }

  // --------------------------------------------------------------------------
  // The table refines a FIFO of distinct keys
  // --------------------------------------------------------------------------

  datatype Access<K> = Access(key: K, at: real)

  // Reference model: the log of insertions, of which the last `cap` are resident.
  function Residents<K>(log: seq<K>, cap: nat): seq<K> {
    if cap == 0 || |log| <= cap then log else log[|log| - cap..]
  }

  function InsertionLog<K(==)>(log: seq<K>, cap: nat, accesses: seq<Access<K>>): seq<K>
    decreases |accesses|
  {
    if accesses == [] then log
    else
      var k := accesses[0].key;
      InsertionLog(if k in Residents(log, cap) then log else log + [k], cap, accesses[1..])
  }

  function Run<K(==)>(t: Table<K>, accesses: seq<Access<K>>, limits: Limits): Table<K>
    requires WellFormed(t) && 1 <= limits.burst
    decreases |accesses|
  {
    if accesses == [] then t
    else
      CheckKeepsWellFormed(t, accesses[0].key, limits, accesses[0].at);
      Run(Check(t, accesses[0].key, limits, accesses[0].at).table, accesses[1..], limits)
  }

  lemma FifoStep<K>(t: Table<K>, log: seq<K>, key: K, limits: Limits, now: real)
    requires WellFormed(t) && 1 <= limits.burst && t.order == Residents(log, t.cap)
    ensures GetOrInsert(t, key, limits, now).order
            == Residents(if key in Residents(log, t.cap) then log else log + [key], t.cap)
  {
    OrderCountsTable(t.order, t.buckets.Keys);
    assert |t.buckets| == |t.buckets.Keys|;
    if key !in t.buckets && t.cap > 0 && |t.order| == t.cap {
      assert t.order[0] != key;
      assert (log + [key])[|log| + 1 - t.cap..] == log[|log| - t.cap..][1..] + [key];
    }
  }

  // After any accesses the table holds exactly the last-inserted distinct keys, in insertion order.
  lemma {:induction false} TableRefinesFifo<K>(t: Table<K>, log: seq<K>, accesses: seq<Access<K>>, limits: Limits)
    requires WellFormed(t) && 1 <= limits.burst && t.order == Residents(log, t.cap)
    ensures var end := Run(t, accesses, limits);
            && WellFormed(end) && end.cap == t.cap
            && end.order == Residents(InsertionLog(log, t.cap, accesses), t.cap)
            && |end.buckets| == |end.order| && (t.cap > 0 ==> |end.buckets| <= t.cap)
    decreases |accesses|
  {
    if accesses == [] {
      OrderCountsTable(t.order, t.buckets.Keys);
      assert |t.buckets| == |t.buckets.Keys|;
    } else {
      var k, now := accesses[0].key, accesses[0].at;
      FifoStep(t, log, k, limits, now);
      CheckKeepsWellFormed(t, k, limits, now);
      hide WellFormed, Check, GetOrInsert, Residents;
      TableRefinesFifo(Check(t, k, limits, now).table,
                       if k in Residents(log, t.cap) then log else log + [k], accesses[1..], limits);
    }
  }

  // --------------------------------------------------------------------------
  // Window bound through evictions
  // --------------------------------------------------------------------------

  // Every bucket belongs to the tier: it has the tier's limits and was refilled in the past.
  ghost predicate OfTier<K>(t: Table<K>, limits: Limits, now: real) {
    && 1 <= limits.burst && WellFormed(t)
    && (forall k :: k in t.buckets ==>
          && t.buckets[k].capacity == limits.burst as real
          && t.buckets[k].rate == limits.Rate()
          && t.buckets[k].lastRefill <= now)
  }

  // What the key could spend at `now`: an absent key would get a full bucket.
  ghost function Budget<K>(t: Table<K>, key: K, limits: Limits, now: real): real {
    if key in t.buckets then Available(t.buckets[key], now) else limits.burst as real
  }

  function AcceptedFor<K(==)>(t: Table<K>, accesses: seq<Access<K>>, limits: Limits, key: K): nat
    requires WellFormed(t) && 1 <= limits.burst
    decreases |accesses|
  {
    if accesses == [] then 0
    else
      CheckKeepsWellFormed(t, accesses[0].key, limits, accesses[0].at);
      var c := Check(t, accesses[0].key, limits, accesses[0].at);
      (if accesses[0].key == key && c.verdict.Admitted? then 1 else 0)
      + AcceptedFor(c.table, accesses[1..], limits, key)
  }

  // How often the bucket of `key` is thrown out during the accesses.
  function EvictionsOf<K(==)>(t: Table<K>, accesses: seq<Access<K>>, limits: Limits, key: K): nat
    requires WellFormed(t) && 1 <= limits.burst
    decreases |accesses|
  {
    if accesses == [] then 0
    else
      CheckKeepsWellFormed(t, accesses[0].key, limits, accesses[0].at);
      var c := Check(t, accesses[0].key, limits, accesses[0].at);
      (if key in t.buckets && key !in c.table.buckets then 1 else 0)
      + EvictionsOf(c.table, accesses[1..], limits, key)
  }

  ghost predicate During<K>(accesses: seq<Access<K>>, s: real, t: real) {
    && (forall i :: 0 <= i < |accesses| ==> s <= accesses[i].at <= t)
    && (forall i, j :: 0 <= i < j < |accesses| ==> accesses[i].at <= accesses[j].at)
  }

  // What `bursts` full buckets and `seconds` of refill amount to.
  ghost function Allowance(bursts: nat, limits: Limits, seconds: real): real {
    bursts as real * limits.burst as real + limits.Rate() * seconds
  }

  lemma AllowancesAdd(m: nat, n: nat, limits: Limits, x: real, y: real)
    ensures Allowance(m, limits, x) + Allowance(n, limits, y) == Allowance(m + n, limits, x + y)
    ensures Allowance(1, limits, 0.0) == limits.burst as real && Allowance(0, limits, 0.0) == 0.0
  {
    Distribute(limits.Rate(), x, y);
    Distribute(limits.burst as real, m as real, n as real);
  }

  lemma BudgetGrows<K>(t: Table<K>, key: K, limits: Limits, s: real, u: real)
    requires OfTier(t, limits, s) && s <= u
    ensures OfTier(t, limits, u)
    ensures Budget(t, key, limits, u) <= Budget(t, key, limits, s) + Allowance(0, limits, u - s)
    ensures Budget(t, key, limits, s) <= limits.burst as real
  {
    if key in t.buckets {
      AvailableGrows(t.buckets[key], s, u);
    }
    assert 0.0 <= limits.Rate() * (u - s);
  }

  lemma CheckSpendsBudget<K>(t: Table<K>, k: K, key: K, limits: Limits, now: real)
    requires OfTier(t, limits, now)
    ensures var c := Check(t, k, limits, now);
            && OfTier(c.table, limits, now)
            && Budget(c.table, key, limits, now) + (if k == key && c.verdict.Admitted? then 1.0 else 0.0)
               <= Budget(t, key, limits, now)
                  + (if key in t.buckets && key !in c.table.buckets then limits.burst as real else 0.0)
  {
    GetOrInsertKeepsWellFormed(t, k, limits, now);
    CheckKeepsWellFormed(t, k, limits, now);
    var b := GetOrInsert(t, k, limits, now).buckets[k];
    TryConsumeKeepsValid(b, now);
    CallSpends(b, now);
    if key in t.buckets {
      RefillKeepsValid(t.buckets[key], now);
    }
  }

  lemma {:induction false} WindowBudget<K>(t: Table<K>, window: seq<Access<K>>, limits: Limits, key: K, s: real,
                                           e: real)
    requires OfTier(t, limits, s) && During(window, s, e) && s <= e
    ensures OfTier(Run(t, window, limits), limits, e)
    ensures AcceptedFor(t, window, limits, key) as real + Budget(Run(t, window, limits), key, limits, e)
            <= Budget(t, key, limits, s) + Allowance(EvictionsOf(t, window, limits, key), limits, e - s)
    decreases |window|
  {
    hide Check, Budget, Allowance;
    if window == [] {
      BudgetGrows(t, key, limits, s, e);
    } else {
      var k, u := window[0].key, window[0].at;
      BudgetGrows(t, key, limits, s, u);
      CheckKeepsWellFormed(t, k, limits, u);
      CheckSpendsBudget(t, k, key, limits, u);
      var t' := Check(t, k, limits, u).table;
      WindowBudget(t', window[1..], limits, key, u, e);
      var lost := if key in t.buckets && key !in t'.buckets then 1 else 0;
      AllowancesAdd(0, lost, limits, u - s, 0.0);
      AllowancesAdd(lost, EvictionsOf(t', window[1..], limits, key), limits, u - s, e - u);
    }
  }

  lemma {:induction false} RunStaysOfTier<K>(t: Table<K>, accesses: seq<Access<K>>, limits: Limits, s: real, e: real)
    requires OfTier(t, limits, s) && During(accesses, s, e) && s <= e
    ensures OfTier(Run(t, accesses, limits), limits, e)
    decreases |accesses|
  {
    if accesses == [] {
    } else {
      CheckSpendsBudget(t, accesses[0].key, accesses[0].key, limits, accesses[0].at);
      RunStaysOfTier(Check(t, accesses[0].key, limits, accesses[0].at).table, accesses[1..], limits, accesses[0].at, e);
    }
  }

  lemma TierIsWellFormed<K>(t: Table<K>, limits: Limits, now: real)
    requires OfTier(t, limits, now)
    ensures WellFormed(t)
  {
  }

  lemma BudgetIsNonNegative<K>(t: Table<K>, key: K, limits: Limits, now: real)
    requires OfTier(t, limits, now)
    ensures 0.0 <= Budget(t, key, limits, now)
  {
    if key in t.buckets {
      RefillKeepsValid(t.buckets[key], now);
    }
  }

  lemma WindowBoundFrom<K>(t: Table<K>, window: seq<Access<K>>, limits: Limits, key: K, s: real, e: real)
    requires OfTier(t, limits, s) && During(window, s, e) && s <= e
    ensures AcceptedFor(t, window, limits, key) as real
            <= Allowance(EvictionsOf(t, window, limits, key) + 1, limits, e - s)
  {
    hide *;
    TierIsWellFormed(t, limits, s);
    BudgetGrows(t, key, limits, s, s);
    WindowBudget(t, window, limits, key, s, e);
    BudgetIsNonNegative(Run(t, window, limits), key, limits, e);
    AllowancesAdd(EvictionsOf(t, window, limits, key), 1, limits, e - s, 0.0);
  }

  // In any run from an empty table and any interval [s, e] after the calls of `before`, one key
  // whose bucket is evicted k times in the interval is admitted at most
  // (k + 1) * burst + rate * (e - s) times.
  lemma WindowBound<K>(cap: nat, before: seq<Access<K>>, window: seq<Access<K>>, limits: Limits, key: K, start: real,
                       s: real, e: real)
    requires 1 <= limits.burst && start <= s <= e
    requires During(before, start, s) && During(window, s, e)
    ensures var t := Run(Empty<K>(cap), before, limits);
            && WellFormed(t)
            && AcceptedFor(t, window, limits, key) as real
               <= Allowance(EvictionsOf(t, window, limits, key) + 1, limits, e - s)
  {
    assert OfTier(Empty<K>(cap), limits, start);
    hide *;
    RunStaysOfTier(Empty<K>(cap), before, limits, start, s);
    TierIsWellFormed(Empty<K>(cap), limits, start);
    var t := Run(Empty<K>(cap), before, limits);
    TierIsWellFormed(t, limits, s);
    WindowBoundFrom(t, window, limits, key, s, e);
  }

  lemma ResidentIsValid<K>(t: Table<K>, key: K)
    requires WellFormed(t) && key in t.buckets
    ensures t.buckets[key].Valid()
  {
  }

  // --------------------------------------------------------------------------
  // The mutable table
  // --------------------------------------------------------------------------

  // The values of a map of bucket objects.
  ghost function ValuesOf<K(!new)>(buckets: map<K, TokenBucket>): (values: map<K, Bucket>)
    reads buckets.Values
    ensures values.Keys == buckets.Keys
  {
    map k | k in buckets :: buckets[k].Value()
  }

  ghost predicate Separate<K(!new)>(buckets: map<K, TokenBucket>) {
    forall k, l :: k in buckets && l in buckets && k != l ==> buckets[k] != buckets[l]
  }

  lemma ValuesOfRemoved<K(!new)>(buckets: map<K, TokenBucket>, key: K)
    ensures ValuesOf(buckets - {key}) == ValuesOf(buckets) - {key}
  {
  }

  lemma ValuesOfAdded<K(!new)>(buckets: map<K, TokenBucket>, key: K, bucket: TokenBucket)
    ensures ValuesOf(buckets[key := bucket]) == ValuesOf(buckets)[key := bucket.Value()]
  {
  }

  // The buckets other than `key` do not depend on its bucket object.
  lemma ValuesOfRest<K(!new)>(buckets: map<K, TokenBucket>, key: K)
    requires key in buckets
    ensures ValuesOf(buckets) == ValuesOf(buckets - {key})[key := buckets[key].Value()]
  {
  }

  lemma CheckOf<K>(t: Table<K>, key: K, limits: Limits, now: real)
    requires WellFormed(t) && 1 <= limits.burst
    ensures var held := GetOrInsert(t, key, limits, now);
            && key in held.buckets
            && var a := TryConsume(held.buckets[key], now);
            Check(t, key, limits, now) == Checked(a.verdict, held.(buckets := held.buckets[key := a.bucket]))
  {
  }

  class LruMap<K(==, !new)> {
    var buckets: map<K, TokenBucket>
    var order: seq<K>
    const cap: nat

    ghost function Model(): Table<K>
      reads this, buckets.Values
    {
      Table(ValuesOf(buckets), order, cap)
    }

    ghost predicate Valid()
      reads this, buckets.Values
    {
      WellFormed(Model()) && Separate(buckets)
    }

    constructor (cap: nat)
      ensures Valid() && Model() == Empty(cap) && buckets == map[]
    {
      buckets, order := map[], [];
      this.cap := cap;
    }

    // Find or make the bucket of the key and take a token from it.
    method CheckOne(key: K, limits: Limits, now: real) returns (verdict: Verdict)
      requires Valid() && 1 <= limits.burst
      modifies this, buckets.Values
      ensures Valid() && Check(old(Model()), key, limits, now) == Checked(verdict, Model())
      ensures fresh(buckets.Values - old(buckets.Values))
    {
      hide WellFormed, ValuesOf, GetOrInsert, Check, TryConsume, MakeRoom, Fresh, Refill, WaitSeconds;
      ghost var before := Model();
      var b := BucketFor(key, limits, now);
      ghost var held, rest := Model(), buckets - {key};
      ResidentIsValid(held, key);
      CheckKeepsWellFormed(before, key, limits, now);
      CheckOf(before, key, limits, now);
      ValuesOfRest(buckets, key);
      label Held:
      verdict := b.TryConsumeOne(now);
      assert ValuesOf(rest) == old@Held(ValuesOf(rest));
      ValuesOfRest(buckets, key);
      assert Model() == Check(before, key, limits, now).table;
    }

    method BucketFor(key: K, limits: Limits, now: real) returns (bucket: TokenBucket)
      requires Valid() && 1 <= limits.burst
      modifies this
      ensures Valid() && Model() == GetOrInsert(old(Model()), key, limits, now)
      ensures key in buckets && bucket == buckets[key]
      ensures forall k :: k in buckets && k != key ==> k in old(buckets) && buckets[k] == old(buckets[k])
      ensures key in old(buckets) ==> buckets == old(buckets)
      ensures key !in old(buckets) ==> fresh(bucket)
    {
      ghost var before := Model();
      hide WellFormed, Fresh, ValuesOf, MakeRoom;
      EvictIfFull(key);
      ghost var kept := ValuesOf(buckets);
      if key !in buckets {
        var made := new TokenBucket(limits.perMinute, limits.burst, now);
        assert ValuesOf(buckets) == kept;
        ValuesOfAdded(buckets, key, made);
        buckets := buckets[key := made];
        order := order + [key];
      }
      bucket := buckets[key];
      assert Model() == GetOrInsert(before, key, limits, now);
      assert WellFormed(Model()) by { GetOrInsertKeepsWellFormed(before, key, limits, now); }
    }

    method EvictIfFull(key: K)
      requires Separate(buckets)
      modifies this
      ensures Model() == MakeRoom(old(Model()), key)
      ensures Separate(buckets) && buckets.Keys <= old(buckets.Keys)
      ensures forall k :: k in buckets ==> buckets[k] == old(buckets[k])
      ensures key in old(buckets) ==> buckets == old(buckets)
    {
      ghost var before := Model();
      assert |before.buckets| == |buckets| by { assert |before.buckets.Keys| == |buckets.Keys|; }
      hide ValuesOf;
      if cap > 0 && key !in buckets && |buckets| >= cap {
        if order != [] {
          var oldest := order[0];
          order := order[1..];
          ValuesOfRemoved(buckets, oldest);
          buckets := buckets - {oldest};
        }
      }
    }
  }
}
