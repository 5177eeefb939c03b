// The three tiers in front of every submission: global, per IP, per key (rate_limit.rs, `RateLimiter`).
module RateLimiters {
  import opened Prelude
  import opened TokenBuckets
  import opened BucketTables

  type Ip = string

  // config.rs, `RateLimitConfig`: a burst of 0 falls back to the legacy field, then to a default.
  datatype RateLimitConfig = RateLimitConfig(
    globalPerMin: nat, perIpPerMin: nat, perKeyPerMin: nat,
    globalBurst: nat, perIpBurst: nat, perKeyBurst: nat, burstSize: nat, ipTableSize: nat)

  function EffectiveBurst(own: nat, legacy: nat, default: nat): nat {
    if own > 0 then own else if legacy > 0 then legacy else default
  }

  // The caller of a check: its address, its key and the overrides configured for that key.
  datatype Caller = Caller(ip: Ip, keyId: KeyId, perMinOverride: Option<nat>, burstOverride: nat)

  datatype Tier = GlobalTier | IpTier | KeyTier

  datatype RateLimited = RateLimited(tier: Tier, retryAfterSecs: nat)

  datatype Limiter = Limiter(global: Bucket, ips: Table<Ip>, keys: map<KeyId, Bucket>, ipLimits: Limits,
                             keyLimits: Limits)

  datatype Outcome = Outcome(refusal: Option<RateLimited>, limiter: Limiter)

  function NewLimiter(cfg: RateLimitConfig, now: real): Limiter {
    Limiter(
      Fresh(cfg.globalPerMin, EffectiveBurst(cfg.globalBurst, cfg.burstSize, 10), now),
      Empty(cfg.ipTableSize),
      map[],
      Limits(cfg.perIpPerMin, EffectiveBurst(cfg.perIpBurst, cfg.burstSize, 5)),
      Limits(cfg.perKeyPerMin, EffectiveBurst(cfg.perKeyBurst, cfg.burstSize, 5)))
  }

  function Refusal(tier: Tier, v: Verdict): Option<RateLimited> {
    match v
    case Admitted => None
    case Denied(wait) => Some(RateLimited(tier, wait))
  }

  ghost predicate ValidKeys(keys: map<KeyId, Bucket>) {
    forall k :: k in keys ==> keys[k].Valid()
  }

  ghost predicate Valid(l: Limiter) {
    && l.global.Valid() && WellFormed(l.ips) && ValidKeys(l.keys)
    && 1 <= l.ipLimits.burst && 1 <= l.keyLimits.burst
  }

  // Valid, and no bucket was refilled after `now`.
  ghost predicate ValidAt(l: Limiter, now: real) {
    && Valid(l) && l.global.lastRefill <= now && OfTier(l.ips, l.ipLimits, now)
    && (forall k :: k in l.keys ==> l.keys[k].lastRefill <= now)
  }

  function CheckGlobal(l: Limiter, now: real): Outcome
    requires Valid(l)
  {
    var a := TryConsume(l.global, now);
    Outcome(Refusal(GlobalTier, a.verdict), l.(global := a.bucket))
  }

  function CheckIp(l: Limiter, ip: Ip, now: real): Outcome
    requires Valid(l)
  {
    var c := Check(l.ips, ip, l.ipLimits, now);
    Outcome(Refusal(IpTier, c.verdict), l.(ips := c.table))
  }

  function LimitsFor(l: Limiter, who: Caller): Limits {
    Limits(
      if who.perMinOverride.Some? then who.perMinOverride.value else l.keyLimits.perMinute,
      if who.burstOverride > 0 then who.burstOverride else l.keyLimits.burst)
  }

  // The bucket of a key keeps the limits of the first call made with it.
  function KeyBucket(keys: map<KeyId, Bucket>, key: KeyId, limits: Limits, now: real): Bucket {
    if key in keys then keys[key] else Fresh(limits.perMinute, limits.burst, now)
  }

  function CheckKey(l: Limiter, who: Caller, now: real): Outcome
    requires Valid(l)
  {
    var a := TryConsume(KeyBucket(l.keys, who.keyId, LimitsFor(l, who), now), now);
    Outcome(Refusal(KeyTier, a.verdict), l.(keys := l.keys[who.keyId := a.bucket]))
  }

  lemma ChecksKeepValid(l: Limiter, who: Caller, now: real)
    requires Valid(l)
    ensures Valid(CheckGlobal(l, now).limiter)
    ensures Valid(CheckIp(l, who.ip, now).limiter)
    ensures Valid(CheckKey(l, who, now).limiter)
  {
    TryConsumeKeepsValid(l.global, now);
    CheckKeepsWellFormed(l.ips, who.ip, l.ipLimits, now);
    FreshIsValid(LimitsFor(l, who).perMinute, LimitsFor(l, who).burst, now);
    TryConsumeKeepsValid(KeyBucket(l.keys, who.keyId, LimitsFor(l, who), now), now);
  }

  // The three readings of the clock of one message.
  datatype CheckTimes = CheckTimes(global: real, ip: real, key: real)

  function AtOnce(now: real): CheckTimes {
    CheckTimes(now, now, now)
  }

  // The handlers ask the three tiers in this order, each at its own time, and stop at the first refusal.
  function AskTiers(l: Limiter, who: Caller, at: CheckTimes): (o: Outcome)
    requires Valid(l)
    ensures Valid(o.limiter)
  {
    ChecksKeepValid(l, who, at.global);
    var g := CheckGlobal(l, at.global);
    if g.refusal.Some? then g
    else
      ChecksKeepValid(g.limiter, who, at.ip);
      var i := CheckIp(g.limiter, who.ip, at.ip);
      if i.refusal.Some? then i
      else
        ChecksKeepValid(i.limiter, who, at.key);
        CheckKey(i.limiter, who, at.key)
  }

  lemma NewLimiterIsValid(cfg: RateLimitConfig, now: real)
    ensures ValidAt(NewLimiter(cfg, now), now)
  {
  }

  // --------------------------------------------------------------------------
  // The key tier gives every key a private bucket
  // --------------------------------------------------------------------------

  datatype KeyCall = KeyCall(key: KeyId, limits: Limits, at: real)

  function AcceptedForKey(keys: map<KeyId, Bucket>, calls: seq<KeyCall>, key: KeyId): nat
    requires ValidKeys(keys) && (forall i :: 0 <= i < |calls| ==> 1 <= calls[i].limits.burst)
    decreases |calls|
  {
    if calls == [] then 0
    else
      var c := calls[0];
      var b := KeyBucket(keys, c.key, c.limits, c.at);
      TryConsumeKeepsValid(b, c.at);
      var a := TryConsume(b, c.at);
      (if c.key == key && a.verdict.Admitted? then 1 else 0)
      + AcceptedForKey(keys[c.key := a.bucket], calls[1..], key)
  }

  function TimesOf(calls: seq<KeyCall>, key: KeyId): seq<real> {
    if calls == [] then []
    else (if calls[0].key == key then [calls[0].at] else []) + TimesOf(calls[1..], key)
  }

  // The bucket that serves the key: the one it has, or the one its first call will make.
  function OpeningBucket(keys: map<KeyId, Bucket>, calls: seq<KeyCall>, key: KeyId): Option<Bucket> {
    if key in keys then Some(keys[key])
    else if calls == [] then None
    else if calls[0].key == key then Some(Fresh(calls[0].limits.perMinute, calls[0].limits.burst, calls[0].at))
    else OpeningBucket(keys, calls[1..], key)
  }

  lemma {:induction false} OpeningBucketIgnoresOthers(keys: map<KeyId, Bucket>, calls: seq<KeyCall>, key: KeyId,
                                                      other: KeyId, b: Bucket)
    requires other != key
    ensures OpeningBucket(keys[other := b], calls, key) == OpeningBucket(keys, calls, key)
  {
    if calls != [] {
      OpeningBucketIgnoresOthers(keys, calls[1..], key, other, b);
    }
  }

  // Whatever other keys do, a key is admitted exactly as often as one bucket of its own would
  // admit its calls: no eviction, no interference.
  lemma {:induction false} KeyTierIsPrivate(keys: map<KeyId, Bucket>, calls: seq<KeyCall>, key: KeyId)
    requires ValidKeys(keys) && (forall i :: 0 <= i < |calls| ==> 1 <= calls[i].limits.burst)
    ensures match OpeningBucket(keys, calls, key)
            case None => AcceptedForKey(keys, calls, key) == 0
            case Some(b) => b.Valid() && AcceptedForKey(keys, calls, key) == Accepted(b, TimesOf(calls, key))
    decreases |calls|
  {
    if calls != [] {
      var c := calls[0];
      var b := KeyBucket(keys, c.key, c.limits, c.at);
      TryConsumeKeepsValid(b, c.at);
      var b' := TryConsume(b, c.at).bucket;
      KeyTierIsPrivate(keys[c.key := b'], calls[1..], key);
      if c.key == key {
        assert TimesOf(calls, key)[1..] == TimesOf(calls[1..], key);
      } else {
        assert TimesOf(calls, key) == TimesOf(calls[1..], key);
        OpeningBucketIgnoresOthers(keys, calls[1..], key, c.key, b');
      }
    }
  }

  ghost predicate Within(calls: seq<KeyCall>, s: real, t: real) {
    && (forall i :: 0 <= i < |calls| ==> s <= calls[i].at <= t)
    && (forall i, j :: 0 <= i < j < |calls| ==> calls[i].at <= calls[j].at)
  }

  lemma {:induction false} TimesAreSorted(calls: seq<KeyCall>, key: KeyId, s: real, t: real)
    requires Within(calls, s, t)
    ensures Sorted(TimesOf(calls, key))
      && forall i :: 0 <= i < |TimesOf(calls, key)| ==> s <= TimesOf(calls, key)[i] <= t
  {
    if calls != [] {
      TimesAreSorted(calls[1..], key, calls[0].at, t);
    }
  }

  // The bucket that serves a key is the one it has, or is made by its first call.
  lemma {:induction false} OpeningIsFirst(keys: map<KeyId, Bucket>, calls: seq<KeyCall>, key: KeyId)
    ensures match OpeningBucket(keys, calls, key)
            case None => key !in keys && TimesOf(calls, key) == []
            case Some(b) => if key in keys then b == keys[key]
                            else TimesOf(calls, key) != [] && b.lastRefill == TimesOf(calls, key)[0]
  {
    if calls != [] {
      OpeningIsFirst(keys, calls[1..], key);
    }
  }

  // The key tier never evicts: in any interval [s, t] a key is admitted at most burst + rate * (t - s) times,
  // with the limits of the first call ever made with it.
  lemma KeyWindowBound(keys: map<KeyId, Bucket>, calls: seq<KeyCall>, key: KeyId, s: real, t: real)
    requires ValidKeys(keys) && (forall k :: k in keys ==> keys[k].lastRefill <= s)
    requires Within(calls, s, t) && s <= t && (forall i :: 0 <= i < |calls| ==> 1 <= calls[i].limits.burst)
    ensures match OpeningBucket(keys, calls, key)
            case None => AcceptedForKey(keys, calls, key) == 0
            case Some(b) => AcceptedForKey(keys, calls, key) as real <= Quota(b, t - s)
  {
    hide OpeningBucket, AcceptedForKey, TimesOf, Quota, Sorted;
    KeyTierIsPrivate(keys, calls, key);
    TimesAreSorted(calls, key, s, t);
    if OpeningBucket(keys, calls, key).Some? {
      OpeningIsFirst(keys, calls, key);
      var b, ts := OpeningBucket(keys, calls, key).value, TimesOf(calls, key);
      if key in keys {
        BucketWindowBound(b, ts, s, t);
      } else {
        BucketWindowBound(b, ts, ts[0], t);
        QuotaGrows(b, t - ts[0], t - s);
      }
    }
  }

  // --------------------------------------------------------------------------
  // Bulk admission
  // --------------------------------------------------------------------------

  // The limiter after the first n messages of a bulk request, all checked at one instant.
  function AfterBulk(l: Limiter, who: Caller, n: nat, now: real): (r: Limiter)
    requires Valid(l)
    ensures Valid(r)
  {
    if n == 0 then l
    else
      var prev := AfterBulk(l, who, n - 1, now);
      AskTiers(prev, who, AtOnce(now)).limiter
  }

  predicate Passes(l: Limiter, who: Caller, index: nat, now: real)
    requires Valid(l)
  {
    AskTiers(AfterBulk(l, who, index, now), who, AtOnce(now)).refusal.None?
  }

  // What the three tiers could spend on the caller at `now`.
  datatype Purse = Purse(global: real, ip: real, key: real)

  ghost function PurseOf(l: Limiter, who: Caller, now: real): Purse {
    Purse(
      Available(l.global, now),
      Budget(l.ips, who.ip, l.ipLimits, now),
      if who.keyId in l.keys then Available(l.keys[who.keyId], now) else LimitsFor(l, who).burst as real)
  }

  ghost function Spend(p: Purse): Purse {
    if p.global < 1.0 then p
    else if p.ip < 1.0 then p.(global := p.global - 1.0)
    else if p.key < 1.0 then p.(global := p.global - 1.0, ip := p.ip - 1.0)
    else Purse(p.global - 1.0, p.ip - 1.0, p.key - 1.0)
  }

  lemma TryConsumeSpends(b: Bucket, now: real)
    requires b.Valid() && b.lastRefill <= now
    ensures var a := TryConsume(b, now);
            && a.bucket.Valid() && a.bucket.lastRefill == now
            && a.bucket.capacity == b.capacity && a.bucket.rate == b.rate
            && (a.verdict.Admitted? <==> 1.0 <= Available(b, now))
            && Available(a.bucket, now) == if a.verdict.Admitted? then Available(b, now) - 1.0 else Available(b, now)
  {
    TryConsumeKeepsValid(b, now);
    CallSpends(b, now);
  }

  lemma GlobalSpends(l: Limiter, who: Caller, now: real)
    requires ValidAt(l, now)
    ensures var g, p := CheckGlobal(l, now), PurseOf(l, who, now);
            && ValidAt(g.limiter, now) && g.limiter.keyLimits == l.keyLimits
            && (g.refusal.None? <==> 1.0 <= p.global)
            && PurseOf(g.limiter, who, now) == if g.refusal.None? then p.(global := p.global - 1.0) else p
  {
    TryConsumeSpends(l.global, now);
  }

  lemma FreshIsFull(limits: Limits, now: real)
    requires 1 <= limits.burst
    ensures var b := Fresh(limits.perMinute, limits.burst, now);
            b.Valid() && Available(b, now) == limits.burst as real && b.rate == limits.Rate()
  {
  }

  lemma IpSpends(l: Limiter, who: Caller, now: real)
    requires ValidAt(l, now)
    ensures var i, p := CheckIp(l, who.ip, now), PurseOf(l, who, now);
            && ValidAt(i.limiter, now) && i.limiter.keyLimits == l.keyLimits
            && (i.refusal.None? <==> 1.0 <= p.ip)
            && PurseOf(i.limiter, who, now) == if i.refusal.None? then p.(ip := p.ip - 1.0) else p
  {
    GetOrInsertKeepsWellFormed(l.ips, who.ip, l.ipLimits, now);
    CheckKeepsWellFormed(l.ips, who.ip, l.ipLimits, now);
    var b := GetOrInsert(l.ips, who.ip, l.ipLimits, now).buckets[who.ip];
    FreshIsFull(l.ipLimits, now);
    TryConsumeSpends(b, now);
  }

  lemma KeySpends(l: Limiter, who: Caller, now: real)
    requires ValidAt(l, now)
    ensures var k, p := CheckKey(l, who, now), PurseOf(l, who, now);
            && ValidAt(k.limiter, now) && k.limiter.keyLimits == l.keyLimits
            && (k.refusal.None? <==> 1.0 <= p.key)
            && PurseOf(k.limiter, who, now) == if k.refusal.None? then p.(key := p.key - 1.0) else p
  {
    FreshIsFull(LimitsFor(l, who), now);
    TryConsumeSpends(KeyBucket(l.keys, who.keyId, LimitsFor(l, who), now), now);
  }

  lemma ValidAtIsValid(l: Limiter, now: real)
    requires ValidAt(l, now)
    ensures Valid(l)
  {
  }

  // One message: it passes exactly when every tier still holds a token, and a refused message
  // has already cost a token in each tier before the one that refuses it.
  lemma MessageSpends(l: Limiter, who: Caller, now: real)
    requires ValidAt(l, now)
    ensures var c, p := AskTiers(l, who, AtOnce(now)), PurseOf(l, who, now);
            && ValidAt(c.limiter, now)
            && (c.refusal.None? <==> 1.0 <= p.global && 1.0 <= p.ip && 1.0 <= p.key)
            && (c.refusal.Some? ==>
                  c.refusal.value.tier
                  == (if p.global < 1.0 then GlobalTier else if p.ip < 1.0 then IpTier else KeyTier))
            && PurseOf(c.limiter, who, now) == Spend(p)
  {
    var g := CheckGlobal(l, now);
    GlobalSpends(l, who, now);
    hide ValidAt, PurseOf;
    if g.refusal.None? {
      ValidAtIsValid(g.limiter, now);
      IpSpends(g.limiter, who, now);
      var i := CheckIp(g.limiter, who.ip, now);
      if i.refusal.None? {
        ValidAtIsValid(i.limiter, now);
        KeySpends(i.limiter, who, now);
      }
    }
  }

  ghost function SpendTimes(p: Purse, n: nat): Purse {
    if n == 0 then p else Spend(SpendTimes(p, n - 1))
  }

  // The closed form of spending n times.
  lemma {:induction false} SpendTimesClosed(p: Purse, n: nat)
    requires 0.0 <= p.global && 0.0 <= p.ip && 0.0 <= p.key
    ensures var g, i, k := p.global.Floor, p.ip.Floor, p.key.Floor;
            SpendTimes(p, n) == Purse(p.global - Min(n, g) as real,
                                      p.ip - Min(n, Min(g, i)) as real,
                                      p.key - Min(n, Min(g, Min(i, k))) as real)
  {
    if n > 0 {
      SpendTimesClosed(p, n - 1);
    }
  }

  lemma {:induction false} BulkSpends(l: Limiter, who: Caller, n: nat, now: real)
    requires ValidAt(l, now)
    ensures ValidAt(AfterBulk(l, who, n, now), now)
    ensures PurseOf(AfterBulk(l, who, n, now), who, now) == SpendTimes(PurseOf(l, who, now), n)
  {
    if n > 0 {
      BulkSpends(l, who, n - 1, now);
      MessageSpends(AfterBulk(l, who, n - 1, now), who, now);
    }
  }

  lemma PurseIsNonNegative(l: Limiter, who: Caller, now: real)
    requires ValidAt(l, now)
    ensures var p := PurseOf(l, who, now); 0.0 <= p.global && 0.0 <= p.ip && 0.0 <= p.key
  {
    RefillKeepsValid(l.global, now);
    BudgetIsNonNegative(l.ips, who.ip, l.ipLimits, now);
    if who.keyId in l.keys {
      RefillKeepsValid(l.keys[who.keyId], now);
    }
  }

  // With no refill and no other traffic the messages that pass all tiers are exactly the first
  // min(floor g, floor i, floor k), and each tier loses exactly as many tokens as messages reached it.
  lemma BulkAdmissionIsAPrefix(l: Limiter, who: Caller, n: nat, now: real)
    requires ValidAt(l, now)
    ensures Valid(l)
    ensures var p := PurseOf(l, who, now);
            var g, i, k := p.global.Floor, p.ip.Floor, p.key.Floor;
            && (forall m: nat :: m < n ==> (Passes(l, who, m, now) <==> m < Min(g, Min(i, k))))
            && PurseOf(AfterBulk(l, who, n, now), who, now)
               == Purse(p.global - Min(n, g) as real,
                        p.ip - Min(n, Min(g, i)) as real,
                        p.key - Min(n, Min(g, Min(i, k))) as real)
  {
    hide ValidAt, PurseOf, Valid, Spend, AskTiers, SpendTimes;
    var p := PurseOf(l, who, now);
    PurseIsNonNegative(l, who, now);
    ValidAtIsValid(l, now);
    BulkSpends(l, who, n, now);
    SpendTimesClosed(p, n);
    var g, i, k := p.global.Floor, p.ip.Floor, p.key.Floor;
    forall m: nat | m < n
      ensures Passes(l, who, m, now) <==> m < Min(g, Min(i, k))
    {
      BulkSpends(l, who, m, now);
      SpendTimesClosed(p, m);
      MessageSpends(AfterBulk(l, who, m, now), who, now);
    }
  }

  // --------------------------------------------------------------------------
  // Each tier decides by its own tokens
  // --------------------------------------------------------------------------

  lemma TierNames(l: Limiter, who: Caller, at: CheckTimes)
    requires Valid(l)
    ensures var g, i, k := CheckGlobal(l, at.global).refusal, CheckIp(l, who.ip, at.ip).refusal,
      CheckKey(l, who, at.key).refusal;
            && (g.Some? ==> g.value.tier == GlobalTier)
            && (i.Some? ==> i.value.tier == IpTier)
            && (k.Some? ==> k.value.tier == KeyTier)
  {
  }

  lemma ValidLater(l: Limiter, now: real, later: real)
    requires ValidAt(l, now) && now <= later
    ensures ValidAt(l, later)
  {
  }

  lemma GlobalChangesNoOther(l: Limiter, who: Caller, at: CheckTimes)
    requires Valid(l)
    ensures var l' := CheckGlobal(l, at.global).limiter;
            && PurseOf(l', who, at.ip).ip == PurseOf(l, who, at.ip).ip
            && PurseOf(l', who, at.key).key == PurseOf(l, who, at.key).key
  {
    hide Available, Budget, TryConsume;
  }

  lemma IpChangesNoOther(l: Limiter, who: Caller, at: CheckTimes)
    requires Valid(l)
    ensures PurseOf(CheckIp(l, who.ip, at.ip).limiter, who, at.key).key == PurseOf(l, who, at.key).key
  {
    hide Available, Budget, Check;
  }

  // A message passes exactly when each tier holds a token when it is asked; otherwise the first that does not
  // refuses it.
  lemma TiersDecideByTokens(l: Limiter, who: Caller, at: CheckTimes)
    requires ValidAt(l, at.global) && at.global <= at.ip <= at.key
    ensures Valid(l)
    ensures var r := AskTiers(l, who, at).refusal;
            var g, i, k := PurseOf(l, who, at.global).global, PurseOf(l, who, at.ip).ip, PurseOf(l, who, at.key).key;
            && (r.None? <==> 1.0 <= g && 1.0 <= i && 1.0 <= k)
            && (r.Some? ==> r.value.tier == (if g < 1.0 then GlobalTier else if i < 1.0 then IpTier else KeyTier))
  {
    hide ValidAt, PurseOf, CheckGlobal, CheckIp, CheckKey, Valid;
    ValidAtIsValid(l, at.global);
    GlobalSpends(l, who, at.global);
    TierNames(l, who, at);
    var g := CheckGlobal(l, at.global);
    GlobalChangesNoOther(l, who, at);
    if g.refusal.None? {
      ValidLater(g.limiter, at.global, at.ip);
      IpSpends(g.limiter, who, at.ip);
      ValidAtIsValid(g.limiter, at.ip);
      TierNames(g.limiter, who, at);
      var i := CheckIp(g.limiter, who.ip, at.ip);
      if i.refusal.None? {
        IpChangesNoOther(g.limiter, who, at);
        ValidLater(i.limiter, at.ip, at.key);
        ValidAtIsValid(i.limiter, at.key);
        KeySpends(i.limiter, who, at.key);
        TierNames(i.limiter, who, at);
      }
    }
  }

  // --------------------------------------------------------------------------
  // Retry-After, as the limiter reports it
  // --------------------------------------------------------------------------

  function CheckTier(l: Limiter, who: Caller, tier: Tier, now: real): Outcome
    requires Valid(l)
  {
    match tier
    case GlobalTier => CheckGlobal(l, now)
    case IpTier => CheckIp(l, who.ip, now)
    case KeyTier => CheckKey(l, who, now)
  }

  // The bucket that serves the caller in a tier, if there is one yet.
  function TierBucket(l: Limiter, who: Caller, tier: Tier): Option<Bucket> {
    match tier
    case GlobalTier => Some(l.global)
    case IpTier => if who.ip in l.ips.buckets then Some(l.ips.buckets[who.ip]) else None
    case KeyTier => if who.keyId in l.keys then Some(l.keys[who.keyId]) else None
  }

  function TimeAt(at: CheckTimes, tier: Tier): real {
    match tier
    case GlobalTier => at.global
    case IpTier => at.ip
    case KeyTier => at.key
  }

  // A tier answers as its bucket does, seconds to wait included.
  lemma TierAnswers(l: Limiter, who: Caller, tier: Tier, now: real)
    requires Valid(l) && TierBucket(l, who, tier).Some?
    ensures var b, o := TierBucket(l, who, tier).value, CheckTier(l, who, tier, now);
            && b.Valid()
            && (match TryConsume(b, now).verdict
                case Admitted => o.refusal.None?
                case Denied(wait) => o.refusal.Some? && o.refusal.value == RateLimited(tier, wait))
            && TierBucket(o.limiter, who, tier) == Some(TryConsume(b, now).bucket)
  {
    hide TryConsume;
    if tier.IpTier? {
      GetOrInsertKeepsWellFormed(l.ips, who.ip, l.ipLimits, now);
    }
  }

  lemma FreshPasses(limits: Limits, now: real)
    requires 1 <= limits.burst
    ensures var a := TryConsume(Fresh(limits.perMinute, limits.burst, now), now);
            && a.verdict.Admitted? && a.bucket.tokens == limits.burst as real - 1.0
            && a.bucket.capacity == limits.burst as real && a.bucket.rate * 60.0 == limits.perMinute as real
  {
  }

  // A bucket made by the call is full, so only one that was there already refuses.
  lemma NewcomersPass(l: Limiter, who: Caller, tier: Tier, now: real)
    requires Valid(l) && TierBucket(l, who, tier).None?
    ensures CheckTier(l, who, tier, now).refusal.None?
  {
    if tier.IpTier? {
      GetOrInsertKeepsWellFormed(l.ips, who.ip, l.ipLimits, now);
      FreshPasses(l.ipLimits, now);
    } else {
      FreshPasses(LimitsFor(l, who), now);
    }
  }

  // Between `l` and `l'` the caller's bucket of the tier stayed, was refilled and asked at the times of `quiet`, and
  // gave no token.
  ghost predicate NoTokenTaken(l: Limiter, l': Limiter, who: Caller, tier: Tier, quiet: seq<Event>) {
    var b, c := TierBucket(l, who, tier), TierBucket(l', who, tier);
    b.Some? && c.Some? && 0.0 <= b.value.rate && NoneSucceed(b.value, quiet) && c.value == After(b.value, quiet)
  }

  ghost predicate QuietTimes(quiet: seq<Event>, now: real, later: real) {
    InOrder(quiet, now) && now <= later && forall i :: 0 <= i < |quiet| ==> quiet[i].at <= later
  }

  // A refused caller that comes back to the tier when told passes, and up to a second earlier it does not.
  lemma TierRetryAfterIsExact(l: Limiter, who: Caller, tier: Tier, now: real, quiet: seq<Event>, l': Limiter,
                              later: real)
    requires Valid(l) && Valid(l') && CheckTier(l, who, tier, now).refusal.Some?
    requires var b := TierBucket(l, who, tier); b.Some? ==> 0.0 < b.value.rate && b.value.lastRefill <= now
    requires NoTokenTaken(CheckTier(l, who, tier, now).limiter, l', who, tier, quiet) && QuietTimes(quiet, now, later)
    ensures var wait := CheckTier(l, who, tier, now).refusal.value.retryAfterSecs as real;
            && (now + wait <= later ==> CheckTier(l', who, tier, later).refusal.None?)
            && (later <= now + wait - 1.0 ==> CheckTier(l', who, tier, later).refusal.Some?)
  {
    hide CheckTier, TierBucket, TryConsume, Valid, After, NoneSucceed, InOrder;
    if TierBucket(l, who, tier).None? {
      NewcomersPass(l, who, tier, now);
    } else {
      TierAnswers(l, who, tier, now);
      TierAnswers(l', who, tier, later);
      RetryAfterIsExact(TierBucket(l, who, tier).value, now, quiet, later);
    }
  }

  // The tier that refuses a message, asked on its own.
  lemma RefusingTier(l: Limiter, who: Caller, at: CheckTimes) returns (before: Limiter)
    requires ValidAt(l, at.global) && at.global <= at.ip <= at.key
    requires Valid(l) && AskTiers(l, who, at).refusal.Some?
    ensures var tier := AskTiers(l, who, at).refusal.value.tier;
            && ValidAt(before, TimeAt(at, tier)) && Valid(before)
            && CheckTier(before, who, tier, TimeAt(at, tier)) == AskTiers(l, who, at)
  {
    hide ValidAt, PurseOf, CheckGlobal, CheckIp, CheckKey, Valid;
    before := l;
    GlobalSpends(l, who, at.global);
    TierNames(l, who, at);
    var g := CheckGlobal(l, at.global);
    if g.refusal.None? {
      ValidLater(g.limiter, at.global, at.ip);
      ValidAtIsValid(g.limiter, at.ip);
      IpSpends(g.limiter, who, at.ip);
      TierNames(g.limiter, who, at);
      before := g.limiter;
      var i := CheckIp(g.limiter, who.ip, at.ip);
      if i.refusal.None? {
        ValidLater(i.limiter, at.ip, at.key);
        ValidAtIsValid(i.limiter, at.key);
        TierNames(i.limiter, who, at);
        before := i.limiter;
      }
    }
  }

  // Asking keeps the rate of the bucket.
  lemma BucketBefore(l: Limiter, who: Caller, tier: Tier, now: real)
    requires ValidAt(l, now) && Valid(l)
    ensures var b, c := TierBucket(l, who, tier), TierBucket(CheckTier(l, who, tier, now).limiter, who, tier);
            b.Some? ==> c.Some? && c.value.rate == b.value.rate && b.value.lastRefill <= now
  {
    hide TryConsume;
    if TierBucket(l, who, tier).Some? {
      TierAnswers(l, who, tier, now);
      TryConsumeKeepsValid(TierBucket(l, who, tier).value, now);
    }
  }

  // The same for a message that went through the tiers: the seconds it is told are exact for the tier that refused it.
  lemma AskRetryAfterIsExact(l: Limiter, who: Caller, at: CheckTimes, quiet: seq<Event>, l': Limiter, later: real)
    requires ValidAt(l, at.global) && at.global <= at.ip <= at.key && Valid(l) && Valid(l')
    requires AskTiers(l, who, at).refusal.Some?
    requires var o := AskTiers(l, who, at);
             var tier := o.refusal.value.tier;
             && (TierBucket(o.limiter, who, tier).Some? ==> 0.0 < TierBucket(o.limiter, who, tier).value.rate)
             && NoTokenTaken(o.limiter, l', who, tier, quiet) && QuietTimes(quiet, TimeAt(at, tier), later)
    ensures var r := AskTiers(l, who, at).refusal.value;
            var now, wait := TimeAt(at, r.tier), r.retryAfterSecs as real;
            && (now + wait <= later ==> CheckTier(l', who, r.tier, later).refusal.None?)
            && (later <= now + wait - 1.0 ==> CheckTier(l', who, r.tier, later).refusal.Some?)
  {
    hide CheckTier, TierBucket, AskTiers, ValidAt, Valid, NoTokenTaken, QuietTimes;
    var r := AskTiers(l, who, at).refusal.value;
    var before := RefusingTier(l, who, at);
    BucketBefore(before, who, r.tier, TimeAt(at, r.tier));
    TierRetryAfterIsExact(before, who, r.tier, TimeAt(at, r.tier), quiet, l', later);
  }

  // --------------------------------------------------------------------------
  // Which limits reach which tier
  // --------------------------------------------------------------------------

  // The first call of a key passes, and leaves a bucket of exactly the limits configured for the key, or of the
  // defaults where it has none, one token short of full.
  lemma FirstKeyCall(l: Limiter, who: Caller, now: real)
    requires Valid(l) && who.keyId !in l.keys
    ensures var o := CheckKey(l, who, now);
            && o.refusal.None? && who.keyId in o.limiter.keys
            && var b := o.limiter.keys[who.keyId];
            && b.rate * 60.0
                 == (match who.perMinOverride case Some(p) => p as real case None => l.keyLimits.perMinute as real)
            && (0 < who.burstOverride ==> b.capacity == who.burstOverride as real)
            && (who.burstOverride == 0 ==> b.capacity == l.keyLimits.burst as real)
            && b.tokens == b.capacity - 1.0
  {
    FreshPasses(LimitsFor(l, who), now);
  }

  lemma FirstIpCall(l: Limiter, ip: Ip, now: real)
    requires Valid(l) && ip !in l.ips.buckets
    ensures var o := CheckIp(l, ip, now);
            && o.refusal.None? && ip in o.limiter.ips.buckets
            && var b := o.limiter.ips.buckets[ip];
            && b.rate * 60.0 == l.ipLimits.perMinute as real && b.capacity == l.ipLimits.burst as real
            && b.tokens == b.capacity - 1.0
  {
    GetOrInsertKeepsWellFormed(l.ips, ip, l.ipLimits, now);
    FreshPasses(l.ipLimits, now);
  }

  // What a new limiter is made of, setting by setting: a burst is its own setting, or else the legacy one, or else the
  // default of its tier.
  lemma NewLimiterLimits(cfg: RateLimitConfig, now: real)
    ensures var l := NewLimiter(cfg, now);
            && l.global.rate * 60.0 == cfg.globalPerMin as real && l.global.tokens == l.global.capacity
            && (0 < cfg.globalBurst ==> l.global.capacity == cfg.globalBurst as real)
            && (cfg.globalBurst == 0 && 0 < cfg.burstSize ==> l.global.capacity == cfg.burstSize as real)
            && (cfg.globalBurst == 0 && cfg.burstSize == 0 ==> l.global.capacity == 10.0)
            && l.ipLimits.perMinute == cfg.perIpPerMin
            && (0 < cfg.perIpBurst ==> l.ipLimits.burst == cfg.perIpBurst)
            && (cfg.perIpBurst == 0 && 0 < cfg.burstSize ==> l.ipLimits.burst == cfg.burstSize)
            && (cfg.perIpBurst == 0 && cfg.burstSize == 0 ==> l.ipLimits.burst == 5)
            && l.keyLimits.perMinute == cfg.perKeyPerMin
            && (0 < cfg.perKeyBurst ==> l.keyLimits.burst == cfg.perKeyBurst)
            && (cfg.perKeyBurst == 0 && 0 < cfg.burstSize ==> l.keyLimits.burst == cfg.burstSize)
            && (cfg.perKeyBurst == 0 && cfg.burstSize == 0 ==> l.keyLimits.burst == 5)
            && l.ips.cap == cfg.ipTableSize && l.ips.order == [] && |l.ips.buckets| == 0 && |l.keys| == 0
  {
  }

  // --------------------------------------------------------------------------
  // The mutable limiter
  // --------------------------------------------------------------------------

  // The locked hash map of the key tier.
  class KeyBuckets {
    var buckets: map<KeyId, TokenBucket>

    ghost predicate Consistent()
      reads this, buckets.Values
    {
      ValidKeys(ValuesOf(buckets)) && Separate(buckets)
    }

    constructor ()
      ensures buckets == map[]
    {
      buckets := map[];
    }

    // The bucket of a key, made full on first use.
    method BucketFor(key: KeyId, limits: Limits, now: real) returns (bucket: TokenBucket)
      requires Consistent() && 1 <= limits.burst
      modifies this
      ensures Consistent() && key in buckets && bucket == buckets[key]
      ensures ValuesOf(buckets) == old(ValuesOf(buckets))[key := KeyBucket(old(ValuesOf(buckets)), key, limits, now)]
      ensures fresh(buckets.Values - old(buckets.Values))
    {
      ghost var before := ValuesOf(buckets);
      hide ValuesOf;
      if key !in buckets {
        var made := new TokenBucket(limits.perMinute, limits.burst, now);
        FreshIsValid(limits.perMinute, limits.burst, now);
        assert ValuesOf(buckets) == before;
        ValuesOfAdded(buckets, key, made);
        buckets := buckets[key := made];
      } else {
        ValuesOfAdded(buckets, key, buckets[key]);
        assert buckets == buckets[key := buckets[key]];
      }
      bucket := buckets[key];
    }

    method CheckOne(key: KeyId, limits: Limits, now: real) returns (verdict: Verdict)
      requires Consistent() && 1 <= limits.burst
      modifies this, buckets.Values
      ensures Consistent()
      ensures var a := TryConsume(KeyBucket(old(ValuesOf(buckets)), key, limits, now), now);
              verdict == a.verdict && ValuesOf(buckets) == old(ValuesOf(buckets))[key := a.bucket]
      ensures fresh(buckets.Values - old(buckets.Values))
    {
      var b := BucketFor(key, limits, now);
      hide ValuesOf, TryConsume, KeyBucket;
      ValuesOfRest(buckets, key);
      verdict := b.TryConsumeOne(now);
      ValuesOfRest(buckets, key);
    }
  }

  // Each method is one region held under one lock of the source.
  class RateLimiter {
    const global: TokenBucket
    const byIp: LruMap<Ip>
    const byKey: KeyBuckets
    const ipLimits: Limits
    const keyLimits: Limits

    // Everything a check may change.
    ghost function Footprint(): set<object>
      reads byIp, byKey
    {
      {global, byIp, byKey} + byIp.buckets.Values + byKey.buckets.Values
    }

    ghost function Model(): Limiter
      reads Footprint()
    {
      Limiter(global.Value(), byIp.Model(), ValuesOf(byKey.buckets), ipLimits, keyLimits)
    }

    // No bucket object is shared between tiers.
    ghost predicate Consistent()
      reads Footprint()
    {
      && Valid(Model()) && byIp.Valid() && byKey.Consistent()
      && global !in byIp.buckets.Values && global !in byKey.buckets.Values
      && byIp.buckets.Values !! byKey.buckets.Values
    }

    constructor (cfg: RateLimitConfig, now: real)
      ensures Consistent() && Model() == NewLimiter(cfg, now)
      ensures fresh(global) && fresh(byIp) && fresh(byKey)
    {
      global := new TokenBucket(cfg.globalPerMin, EffectiveBurst(cfg.globalBurst, cfg.burstSize, 10), now);
      byIp := new LruMap<Ip>(cfg.ipTableSize);
      byKey := new KeyBuckets();
      ipLimits := Limits(cfg.perIpPerMin, EffectiveBurst(cfg.perIpBurst, cfg.burstSize, 5));
      keyLimits := Limits(cfg.perKeyPerMin, EffectiveBurst(cfg.perKeyBurst, cfg.burstSize, 5));
      new;
      assert ValuesOf(byKey.buckets) == map[];
      NewLimiterIsValid(cfg, now);
    }

    method CheckGlobalTier(now: real) returns (refusal: Option<RateLimited>)
      requires Consistent()
      modifies global
      ensures Consistent()
      ensures CheckGlobal(old(Model()), now) == Outcome(refusal, Model())
    {
      var v := global.TryConsumeOne(now);
      refusal := Refusal(GlobalTier, v);
    }

    method CheckIpTier(ip: Ip, now: real) returns (refusal: Option<RateLimited>)
      requires Consistent()
      modifies byIp, byIp.buckets.Values
      ensures Consistent()
      ensures CheckIp(old(Model()), ip, now) == Outcome(refusal, Model())
      ensures fresh(byIp.buckets.Values - old(byIp.buckets.Values))
    {
      hide WellFormed, ValuesOf, Check;
      var v := byIp.CheckOne(ip, ipLimits, now);
      refusal := Refusal(IpTier, v);
    }

    method CheckKeyTier(who: Caller, now: real) returns (refusal: Option<RateLimited>)
      requires Consistent()
      modifies byKey, byKey.buckets.Values
      ensures Consistent()
      ensures CheckKey(old(Model()), who, now) == Outcome(refusal, Model())
      ensures fresh(byKey.buckets.Values - old(byKey.buckets.Values))
    {
      var perMinute := if who.perMinOverride.Some? then who.perMinOverride.value else keyLimits.perMinute;
      var burst := if who.burstOverride > 0 then who.burstOverride else keyLimits.burst;
      hide WellFormed, ValuesOf, KeyBucket, TryConsume;
      var v := byKey.CheckOne(who.keyId, Limits(perMinute, burst), now);
      refusal := Refusal(KeyTier, v);
    }

    // The three checks of one message.
    method AskInOrder(who: Caller, at: CheckTimes) returns (refusal: Option<RateLimited>)
      requires Consistent()
      modifies Footprint()
      ensures Consistent()
      ensures Outcome(refusal, Model()) == AskTiers(old(Model()), who, at)
      ensures fresh(Footprint() - old(Footprint()))
    {
      hide WellFormed, ValuesOf, Check, CheckGlobal, CheckIp, CheckKey, Valid;
      refusal := CheckGlobalTier(at.global);
      if refusal.None? {
        refusal := CheckIpTier(who.ip, at.ip);
        if refusal.None? {
          refusal := CheckKeyTier(who, at.key);
        }
      }
    }
  }
}
