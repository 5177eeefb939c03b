// The lazily refilled token bucket (rate_limit.rs, `TokenBucket`).
//
// Time is a real number of seconds and token counts are exact reals: the rounding of `f64`
// is outside the model. `Bucket` is the value of a bucket, `TokenBucket` the mutable object.
module TokenBuckets {
  import opened Prelude

  const U64_MAX: nat := 0xFFFF_FFFF_FFFF_FFFF

  datatype Bucket = Bucket(capacity: real, rate: real, tokens: real, lastRefill: real) {
    ghost predicate Valid() {
      1.0 <= capacity && 0.0 <= rate && 0.0 <= tokens <= capacity
    }
  }

  datatype Verdict = Admitted | Denied(retryAfter: nat)

  // The verdict of a call together with the bucket it leaves behind.
  datatype Attempt = Attempt(verdict: Verdict, bucket: Bucket)

  function Fresh(perMinute: nat, burst: nat, now: real): Bucket {
    Bucket(burst as real, perMinute as real / 60.0, burst as real, now)
  }

  // `duration_since` saturates at zero when the clock reads earlier than the last refill.
  function Elapsed(since: real, now: real): real {
    if since <= now then now - since else 0.0
  }

  function Refill(b: Bucket, now: real): Bucket {
    b.(tokens := MinReal(b.tokens + Elapsed(b.lastRefill, now) * b.rate, b.capacity), lastRefill := now)
  }

  function Ceiling(x: real): int {
    -((-x).Floor)
  }

  // The Retry-After of a refused call. A bucket that never refills divides by zero, and the
  // resulting infinity saturates to the largest u64.
  function WaitSeconds(b: Bucket): nat
    requires b.tokens < 1.0 && 0.0 <= b.rate
  {
    if b.rate == 0.0 then U64_MAX else Max(Ceiling((1.0 - b.tokens) / b.rate), 1)
  }

  function TryConsume(b: Bucket, now: real): Attempt
    requires 0.0 <= b.rate
  {
    var r := Refill(b, now);
    if r.tokens >= 1.0 then Attempt(Admitted, r.(tokens := r.tokens - 1.0))
    else Attempt(Denied(WaitSeconds(r)), r)
  }

  lemma RefillKeepsValid(b: Bucket, now: real)
    requires b.Valid()
    ensures Refill(b, now).Valid()
    ensures b.tokens <= Refill(b, now).tokens
  {
    assert 0.0 <= Elapsed(b.lastRefill, now) * b.rate;
  }

  // The mutable bucket of the source. Every method is tied to the function on values.
  class TokenBucket {
    const capacity: real
    const tokensPerSec: real
    var tokens: real
    var lastRefill: real

    ghost function Value(): Bucket
      reads this
    {
      Bucket(capacity, tokensPerSec, tokens, lastRefill)
    }

    constructor (perMinute: nat, burst: nat, now: real)
      ensures Value() == Fresh(perMinute, burst, now)
    {
      capacity := burst as real;
      tokensPerSec := perMinute as real / 60.0;
      tokens := burst as real;
      lastRefill := now;
    }

    method TryConsumeOne(now: real) returns (verdict: Verdict)
      requires Value().Valid()
      modifies this
      ensures TryConsume(old(Value()), now) == Attempt(verdict, Value())
      ensures Value().Valid()
    {
      RefillKeepsValid(Value(), now);
      RefillTo(now);
      if tokens >= 1.0 {
        tokens := tokens - 1.0;
        verdict := Admitted;
      } else {
        var wait := U64_MAX;
        if tokensPerSec != 0.0 {
          wait := Max(Ceiling((1.0 - tokens) / tokensPerSec), 1);
        }
        verdict := Denied(wait);
      }
    }

    method RefillTo(now: real)
      modifies this
      ensures Value() == Refill(old(Value()), now)
    {
      var elapsed := Elapsed(lastRefill, now);
      tokens := MinReal(tokens + elapsed * tokensPerSec, capacity);
      lastRefill := now;
    }
  }

  lemma FreshIsValid(perMinute: nat, burst: nat, now: real)
    requires 1 <= burst
    ensures Fresh(perMinute, burst, now).Valid()
  {
  }

  lemma TryConsumeKeepsValid(b: Bucket, now: real)
    requires b.Valid()
    ensures TryConsume(b, now).bucket.Valid()
    ensures TryConsume(b, now).bucket.capacity == b.capacity && TryConsume(b, now).bucket.rate == b.rate
    ensures TryConsume(b, now).bucket.lastRefill == now
  {
    RefillKeepsValid(b, now);
  }

  // --------------------------------------------------------------------------
  // Lazy refill is path independent
  // --------------------------------------------------------------------------

  lemma RefillTwice(b: Bucket, t1: real, t2: real)
    requires b.Valid() && b.lastRefill <= t1 <= t2
    ensures Refill(Refill(b, t1), t2) == Refill(b, t2)
  {
    var r := b.rate;
    var x, y := t1 - b.lastRefill, t2 - t1;
    assert (x + y) * r == x * r + y * r;
    assert 0.0 <= x * r && 0.0 <= y * r;
  }

  // Two buckets that no later observation can tell apart.
  ghost predicate Alike(a: Bucket, b: Bucket, now: real) {
    && a.Valid() && b.Valid() && a.lastRefill <= now && b.lastRefill <= now
    && Refill(a, now) == Refill(b, now)
  }

  lemma AlikeLater(a: Bucket, b: Bucket, t1: real, t2: real)
    requires Alike(a, b, t1) && t1 <= t2
    ensures Alike(a, b, t2)
  {
    RefillTwice(a, t1, t2);
    RefillTwice(b, t1, t2);
  }

  // What can happen to a bucket: an extra refill, or a call that tries to take a token.
  datatype Event = Touch(at: real) | Call(at: real)

  ghost predicate InOrder(es: seq<Event>, from: real) {
    && (forall i :: 0 <= i < |es| ==> from <= es[i].at)
    && (forall i, j :: 0 <= i < j < |es| ==> es[i].at <= es[j].at)
  }

  function Apply(b: Bucket, e: Event): Bucket
    requires 0.0 <= b.rate
  {
    match e
    case Touch(t) => Refill(b, t)
    case Call(t) => TryConsume(b, t).bucket
  }

  function After(b: Bucket, es: seq<Event>): Bucket
    requires 0.0 <= b.rate
    decreases |es|
  {
    if es == [] then b else After(Apply(b, es[0]), es[1..])
  }

  predicate Succeeds(b: Bucket, e: Event)
    requires 0.0 <= b.rate
  {
    e.Call? && TryConsume(b, e.at).verdict.Admitted?
  }

  // The events that survive when those with a false mark are erased. A mark is ignored for a
  // successful call: only refills and refused calls can be erased.
  function Erase(b: Bucket, es: seq<Event>, marks: seq<bool>): seq<Event>
    requires 0.0 <= b.rate && |marks| == |es|
    decreases |es|
  {
    if es == [] then []
    else
      var rest := Erase(Apply(b, es[0]), es[1..], marks[1..]);
      if Succeeds(b, es[0]) || marks[0] then [es[0]] + rest else rest
  }

  // The verdicts of the calls in `es`, in order.
  function Verdicts(b: Bucket, es: seq<Event>): seq<Verdict>
    requires 0.0 <= b.rate
    decreases |es|
  {
    if es == [] then []
    else
      var rest := Verdicts(Apply(b, es[0]), es[1..]);
      if es[0].Call? then [TryConsume(b, es[0].at).verdict] + rest else rest
  }

  // The verdicts that the surviving calls had in the full run.
  function VerdictsOfKept(b: Bucket, es: seq<Event>, marks: seq<bool>): seq<Verdict>
    requires 0.0 <= b.rate && |marks| == |es|
    decreases |es|
  {
    if es == [] then []
    else
      var rest := VerdictsOfKept(Apply(b, es[0]), es[1..], marks[1..]);
      if es[0].Call? && (Succeeds(b, es[0]) || marks[0]) then [TryConsume(b, es[0].at).verdict] + rest else rest
  }

  lemma AlikeStep(a: Bucket, b: Bucket, e: Event, now: real)
    requires Alike(a, b, now) && now <= e.at
    ensures Apply(a, e) == Apply(b, e) && Apply(a, e).Valid() && Apply(a, e).lastRefill == e.at
    ensures e.Call? ==> TryConsume(a, e.at).verdict == TryConsume(b, e.at).verdict
  {
    AlikeLater(a, b, now, e.at);
    RefillKeepsValid(a, e.at);
  }

  // An event that takes no token leaves a bucket alike to the one before.
  lemma IdleStep(a: Bucket, b: Bucket, e: Event, now: real)
    requires Alike(a, b, now) && now <= e.at && !Succeeds(b, e)
    ensures Alike(a, Apply(b, e), e.at)
  {
    AlikeLater(a, b, now, e.at);
    RefillKeepsValid(b, e.at);
    RefillTwice(b, e.at, e.at);
  }

  lemma InOrderTail(es: seq<Event>, from: real)
    requires InOrder(es, from) && es != []
    ensures InOrder(es[1..], es[0].at) && from <= es[0].at
  {
  }

  // Erasing any set of extra refills and refused calls, anywhere in a run, changes no verdict
  // of what remains (the Retry-After values included) and leaves an equivalent bucket.
  lemma {:induction false} ErasureChangesNoVerdict(a: Bucket, b: Bucket, es: seq<Event>, marks: seq<bool>, now: real)
    requires Alike(a, b, now) && InOrder(es, now) && |marks| == |es|
    ensures Verdicts(a, Erase(b, es, marks)) == VerdictsOfKept(b, es, marks)
    ensures var end := if es == [] then now else es[|es| - 1].at;
            Alike(After(a, Erase(b, es, marks)), After(b, es), end)
    decreases |es|
  {
    if es != [] {
      var e := es[0];
      InOrderTail(es, now);
      AlikeStep(a, b, e, now);
      if Succeeds(b, e) || marks[0] {
        ErasureChangesNoVerdict(Apply(a, e), Apply(b, e), es[1..], marks[1..], e.at);
        assert Erase(b, es, marks)[1..] == Erase(Apply(b, e), es[1..], marks[1..]);
      } else {
        IdleStep(a, b, e, now);
        ErasureChangesNoVerdict(a, Apply(b, e), es[1..], marks[1..], e.at);
      }
    }
  }

  // --------------------------------------------------------------------------
  // Retry-After is exact
  // --------------------------------------------------------------------------

  lemma CeilingBounds(x: real)
    ensures x <= Ceiling(x) as real < x + 1.0
  {
  }

  // A call at `later` on a bucket that was refused at `now` succeeds exactly when enough
  // time has passed to earn the missing fraction of a token.
  lemma RefusedBucketEarns(b: Bucket, now: real, later: real)
    requires b.Valid() && b.lastRefill <= now <= later
    requires TryConsume(b, now).verdict.Denied?
    ensures var r := Refill(b, now);
            TryConsume(r, later).verdict.Admitted? <==> 1.0 - r.tokens <= (later - now) * r.rate
  {
    RefillKeepsValid(b, now);
  }

  lemma DivisionMeansProduct(need: real, rate: real, d: real)
    requires 0.0 < rate
    ensures need <= d * rate <==> need / rate <= d
  {
    var q := need / rate;
    assert q * rate == need;
    if q <= d {
      assert 0.0 <= (d - q) * rate;
    } else {
      assert 0.0 < (q - d) * rate;
    }
  }

  lemma RefusedBucketIsRefilled(b: Bucket, now: real)
    requires b.Valid() && b.lastRefill <= now && TryConsume(b, now).verdict.Denied?
    ensures var r := TryConsume(b, now).bucket;
            && r == Refill(b, now) && Alike(r, r, now) && r.tokens < 1.0 && r.rate == b.rate
            && TryConsume(b, now).verdict.retryAfter == WaitSeconds(r)
  {
    RefillKeepsValid(b, now);
  }

  lemma AlikeVerdict(a: Bucket, b: Bucket, now: real, later: real)
    requires Alike(a, b, now) && now <= later
    ensures 0.0 <= a.rate == b.rate && TryConsume(a, later).verdict == TryConsume(b, later).verdict
  {
    AlikeStep(a, b, Call(later), now);
  }

  lemma WaitIsExact(r: Bucket, d: real)
    requires r.Valid() && 0.0 < r.rate && r.tokens < 1.0
    ensures WaitSeconds(r) as real <= d ==> 1.0 - r.tokens <= d * r.rate
    ensures d <= WaitSeconds(r) as real - 1.0 ==> d * r.rate < 1.0 - r.tokens
  {
    var need := 1.0 - r.tokens;
    DivisionMeansProduct(need, r.rate, d);
    DivisionMeansProduct(need, r.rate, 0.0);
    CeilingBounds(need / r.rate);
  }

  lemma NextCallIsExact(b: Bucket, now: real, later: real)
    requires b.Valid() && 0.0 < b.rate && b.lastRefill <= now <= later
    requires TryConsume(b, now).verdict.Denied?
    ensures var r, w := TryConsume(b, now).bucket, TryConsume(b, now).verdict.retryAfter as real;
            && (now + w <= later ==> TryConsume(r, later).verdict.Admitted?)
            && (later <= now + w - 1.0 ==> TryConsume(r, later).verdict.Denied?)
  {
    RefusedBucketIsRefilled(b, now);
    RefusedBucketEarns(b, now, later);
    WaitIsExact(Refill(b, now), later - now);
  }

  ghost predicate NoneSucceed(b: Bucket, es: seq<Event>)
    requires 0.0 <= b.rate
    decreases |es|
  {
    es == [] || (!Succeeds(b, es[0]) && NoneSucceed(Apply(b, es[0]), es[1..]))
  }

  lemma {:induction false} QuietRunIsIdle(a: Bucket, b: Bucket, es: seq<Event>, now: real)
    requires Alike(a, b, now) && InOrder(es, now) && NoneSucceed(b, es)
    ensures Alike(a, After(b, es), if es == [] then now else es[|es| - 1].at)
    decreases |es|
  {
    if es != [] {
      InOrderTail(es, now);
      IdleStep(a, b, es[0], now);
      QuietRunIsIdle(a, Apply(b, es[0]), es[1..], es[0].at);
    }
  }

  // After a refusal at `now` asking for `w` seconds, and whatever refills and further refused
  // calls follow, every call at `now + w` or later succeeds and every call up to `now + w - 1`
  // fails: `w` is the least whole number of seconds that helps.
  lemma {:induction false} RetryAfterIsExact(b: Bucket, now: real, quiet: seq<Event>, later: real)
    requires b.Valid() && 0.0 < b.rate && b.lastRefill <= now
    requires TryConsume(b, now).verdict.Denied?
    requires InOrder(quiet, now) && now <= later && (forall i :: 0 <= i < |quiet| ==> quiet[i].at <= later)
    requires NoneSucceed(TryConsume(b, now).bucket, quiet)
    ensures var w := TryConsume(b, now).verdict.retryAfter as real;
            var end := After(TryConsume(b, now).bucket, quiet);
            && 0.0 <= end.rate
            && (now + w <= later ==> TryConsume(end, later).verdict.Admitted?)
            && (later <= now + w - 1.0 ==> TryConsume(end, later).verdict.Denied?)
  {
    RefusedBucketIsRefilled(b, now);
    var r := TryConsume(b, now).bucket;
    hide *;
    QuietRunIsIdle(r, r, quiet, now);
    var end := After(r, quiet);
    AlikeVerdict(r, end, if quiet == [] then now else quiet[|quiet| - 1].at, later);
    NextCallIsExact(b, now, later);
  }

  // Any bucket configured with a positive per-minute rate asks for at most a minute.
  lemma RetryAfterWithinAMinute(perMinute: nat, b: Bucket, now: real)
    requires b.Valid() && 1 <= perMinute && b.rate == perMinute as real / 60.0
    ensures TryConsume(b, now).verdict.Denied? ==> 1 <= TryConsume(b, now).verdict.retryAfter <= 60
  {
    RefillKeepsValid(b, now);
    var r := Refill(b, now);
    if r.tokens < 1.0 {
      var need := 1.0 - r.tokens;
      assert need <= 60.0 * r.rate;
      DivisionMeansProduct(need, r.rate, 60.0);
      CeilingBounds(need / r.rate);
    }
  }

  // A key configured with rate 0 spends its burst and is then refused for ever.
  lemma {:induction false} ZeroRateNeverRecovers(b: Bucket, es: seq<Event>)
    requires b.Valid() && b.rate == 0.0 && b.tokens < 1.0
    ensures NoneSucceed(b, es)
    ensures forall v :: v in Verdicts(b, es) ==> v == Denied(U64_MAX)
    decreases |es|
  {
    if es != [] {
      RefillKeepsValid(b, es[0].at);
      assert Elapsed(b.lastRefill, es[0].at) * b.rate == 0.0;
      assert Apply(b, es[0]).tokens == b.tokens;
      ZeroRateNeverRecovers(Apply(b, es[0]), es[1..]);
    }
  }

  // --------------------------------------------------------------------------
  // Counting over runs of calls
  // --------------------------------------------------------------------------

  ghost predicate Sorted(ts: seq<real>) {
    forall i, j :: 0 <= i < j < |ts| ==> ts[i] <= ts[j]
  }

  function AfterCalls(b: Bucket, ts: seq<real>): Bucket
    requires 0.0 <= b.rate
    decreases |ts|
  {
    if ts == [] then b else AfterCalls(TryConsume(b, ts[0]).bucket, ts[1..])
  }

  function Accepted(b: Bucket, ts: seq<real>): nat
    requires 0.0 <= b.rate
    decreases |ts|
  {
    if ts == [] then 0
    else
      var a := TryConsume(b, ts[0]);
      (if a.verdict.Admitted? then 1 else 0) + Accepted(a.bucket, ts[1..])
  }

  // Tokens the bucket would hold if it were refilled at `now`.
  ghost function Available(b: Bucket, now: real): real {
    Refill(b, now).tokens
  }

  lemma AvailableGrows(b: Bucket, s: real, t: real)
    requires b.Valid() && b.lastRefill <= s <= t
    ensures Available(b, t) <= Available(b, s) + b.rate * (t - s)
    ensures Available(b, s) <= Available(b, t) <= b.capacity
  {
    RefillTwice(b, s, t);
    RefillKeepsValid(b, s);
    RefillKeepsValid(Refill(b, s), t);
  }

  // One call: what it takes comes out of what was available.
  lemma CallSpends(b: Bucket, now: real)
    requires b.Valid() && b.lastRefill <= now
    ensures var a := TryConsume(b, now);
            Available(a.bucket, now) + (if a.verdict.Admitted? then 1.0 else 0.0) == Available(b, now)
  {
    RefillKeepsValid(b, now);
  }

  lemma Distribute(r: real, x: real, y: real)
    ensures r * x + r * y == r * (x + y)
  {
  }

  lemma {:induction false} AcceptedWithinBudget(b: Bucket, ts: seq<real>, s: real, t: real)
    requires b.Valid() && b.lastRefill <= s <= t && Sorted(ts)
    requires forall i :: 0 <= i < |ts| ==> s <= ts[i] <= t
    ensures AfterCalls(b, ts).Valid() && AfterCalls(b, ts).lastRefill <= t
    ensures Accepted(b, ts) as real + Available(AfterCalls(b, ts), t) <= Available(b, s) + b.rate * (t - s)
    decreases |ts|
  {
    hide Refill, TryConsume;
    if ts == [] {
      AvailableGrows(b, s, t);
    } else {
      var u := ts[0];
      var a := TryConsume(b, u);
      TryConsumeKeepsValid(b, u);
      AvailableGrows(b, s, u);
      CallSpends(b, u);
      AcceptedWithinBudget(a.bucket, ts[1..], u, t);
      Distribute(b.rate, u - s, t - u);
    }
  }

  // A full bucket and what it earns in `d` seconds.
  ghost function Quota(b: Bucket, d: real): real {
    b.capacity + b.rate * d
  }

  lemma QuotaGrows(b: Bucket, d: real, e: real)
    requires b.Valid() && d <= e
    ensures Quota(b, d) <= Quota(b, e)
  {
    assert 0.0 <= b.rate * (e - d);
  }

  lemma AvailableIsBounded(b: Bucket, now: real)
    requires b.Valid()
    ensures 0.0 <= Available(b, now) <= b.capacity
  {
    hide Elapsed;
    RefillKeepsValid(b, now);
  }

  // No bucket admits more than its burst and what it earns in any interval.
  lemma BucketWindowBound(b: Bucket, ts: seq<real>, s: real, t: real)
    requires b.Valid() && b.lastRefill <= s <= t && Sorted(ts)
    requires forall i :: 0 <= i < |ts| ==> s <= ts[i] <= t
    ensures Accepted(b, ts) as real <= Quota(b, t - s)
  {
    hide Available, Accepted, AfterCalls, Sorted;
    AcceptedWithinBudget(b, ts, s, t);
    AvailableIsBounded(b, s);
    AvailableIsBounded(AfterCalls(b, ts), t);
  }

  lemma RefillKeepsLead(weak: Bucket, strong: Bucket, lead: nat, t: real)
    requires weak.Valid() && strong.Valid() && weak.lastRefill == strong.lastRefill <= t
    requires weak.capacity <= strong.capacity && weak.rate <= strong.rate
    requires weak.tokens <= strong.tokens + lead as real
    ensures Refill(weak, t).tokens <= Refill(strong, t).tokens + lead as real
  {
    var e := t - weak.lastRefill;
    assert e == Elapsed(weak.lastRefill, t) == Elapsed(strong.lastRefill, t);
    assert 0.0 <= e * (strong.rate - weak.rate);
    assert e * strong.rate == e * weak.rate + e * (strong.rate - weak.rate);
    assert weak.tokens + e * weak.rate <= strong.tokens + lead as real + e * strong.rate;
  }

  // Dominance: on the same arrival times a bucket with at least the burst, the rate and the
  // opening balance has admitted at least as many calls at every prefix. `lead` is how far the
  // stronger bucket is ahead; it may spend its lead, but never falls behind.
  lemma {:induction false} Dominance(weak: Bucket, strong: Bucket, lead: nat, ts: seq<real>, n: nat)
    requires weak.Valid() && strong.Valid() && weak.lastRefill == strong.lastRefill
    requires weak.capacity <= strong.capacity && weak.rate <= strong.rate
    requires weak.tokens <= strong.tokens + lead as real
    requires Sorted(ts) && (forall i :: 0 <= i < |ts| ==> weak.lastRefill <= ts[i])
    requires n <= |ts|
    ensures Accepted(weak, ts[..n]) <= lead + Accepted(strong, ts[..n])
    decreases n
  {
    if n > 0 {
      var t := ts[0];
      var w, s := TryConsume(weak, t), TryConsume(strong, t);
      TryConsumeKeepsValid(weak, t);
      TryConsumeKeepsValid(strong, t);
      RefillKeepsLead(weak, strong, lead, t);
      var lead' := lead + (if s.verdict.Admitted? then 1 else 0) - (if w.verdict.Admitted? then 1 else 0);
      assert 0 <= lead';
      Dominance(w.bucket, s.bucket, lead', ts[1..], n - 1);
      assert ts[..n][1..] == ts[1..][..n - 1];
    }
  }
}
