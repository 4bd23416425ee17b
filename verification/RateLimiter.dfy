/** The rate limiter store: a fixed window whose end moves with every granted token, and a token bucket
    refilled in whole tokens. Times are reals; token counts are integers. */
module RateLimiter {
  import opened Wrappers

  type Key = string

  datatype Counter = Counter(count: int, expiresAt: real)
  datatype Bucket = Bucket(tokens: int, lastRefill: real)

  /** What a caller is told, and whether its tokens were granted. */
  datatype Answer = Answer(amount: int, delay: real, granted: bool)

  function Max(a: real, b: real): real {
    if a >= b then a else b
  }

  function Min(a: int, b: int): int {
    if a <= b then a else b
  }

  /** The time in which so many tokens come in. */
  function Cost(refill: real, tokens: int): real {
    refill * tokens as real
  }

  // ---- Fixed window ----

  function CurrentWindow(c: Option<Counter>, now: real): Counter {
    if c.None? || c.value.expiresAt <= now then Counter(0, now) else c.value
  }

  function FixedStep(c: Option<Counter>, now: real, tokens: nat, limit: Option<int>, refill: real): (Option<Counter>,
                     Answer) {
    var window := CurrentWindow(c, now);
    var next := window.count + tokens;
    if limit.Some? && next > limit.value then (c, Answer(next, Max(0.0, window.expiresAt - now), false))
    else
      var updated := Counter(next, window.expiresAt + Cost(refill, tokens));
      (Some(updated), Answer(next, Max(0.0, updated.expiresAt - now), true))
  }

  // ---- Token bucket ----

  function Refilled(b: Option<Bucket>, now: real, limit: int, refill: real): Bucket
    requires refill > 0.0
  {
    var bucket := if b.None? then Bucket(limit, now) else b.value;
    var toAdd := ((now - bucket.lastRefill) / refill).Floor;
    var filled := if toAdd > 0 then Bucket(Min(limit, bucket.tokens + toAdd), bucket.lastRefill + Cost(refill, toAdd)) else bucket;
    if filled.tokens >= limit then filled.(lastRefill := now) else filled
  }

  function BucketStep(b: Option<Bucket>, now: real, tokens: nat, limit: int, refill: real,
                      allowOverflow: bool): (Bucket, Answer)
    requires refill > 0.0
  {
    var bucket := Refilled(b, now, limit, refill);
    var remaining := bucket.tokens - tokens;
    var granted := allowOverflow || remaining >= 0;
    (if granted then bucket.(tokens := remaining) else bucket, Answer(remaining, Max(0.0, now - bucket.lastRefill), granted))
  }

  class Store {
    var fixed: map<Key, Counter>
    var buckets: map<Key, Bucket>

    constructor ()
      ensures fixed == map[] && buckets == map[]
    {
      fixed, buckets := map[], map[];
    }

    function Fixed(key: Key): Option<Counter>
      reads this`fixed
    {
      if key in fixed then Some(fixed[key]) else None
    }

    function Bucketed(key: Key): Option<Bucket>
      reads this`buckets
    {
      if key in buckets then Some(buckets[key]) else None
    }

    /** A refused request leaves its counter as it is stored, even when its window has run out. */
    method FixedWindow(key: Key, now: real, tokens: nat, limit: Option<int>, refill: real) returns (r: Answer)
      modifies this`fixed
      ensures (Fixed(key), r) == FixedStep(old(Fixed(key)), now, tokens, limit, refill)
      ensures forall k :: k != key ==> Fixed(k) == old(Fixed(k))
      ensures r.granted <==> limit.None? || r.amount <= limit.value
      ensures !r.granted ==> fixed == old(fixed)
    {
      var counter := Counter(0, now);
      if key in fixed && fixed[key].expiresAt > now { counter := fixed[key]; }
      var next := counter.count + tokens;
      if limit.Some? && next > limit.value {
        return Answer(next, Max(0.0, counter.expiresAt - now), false);
      }
      var updated := Counter(next, counter.expiresAt + Cost(refill, tokens));
      fixed := fixed[key := updated];
      return Answer(updated.count, Max(0.0, updated.expiresAt - now), true);
    }

    /** The bucket is written back only where it changed; what is stored is the refilled bucket either way. */
    method TokenBucket(key: Key, now: real, tokens: nat, limit: int, refill: real,
                       allowOverflow: bool) returns (r: Answer)
      requires refill > 0.0
      modifies this`buckets
      ensures key in buckets && (buckets[key], r) == BucketStep(old(Bucketed(key)), now, tokens, limit, refill, allowOverflow)
      ensures forall k :: k != key ==> Bucketed(k) == old(Bucketed(k))
      ensures r.granted <==> allowOverflow || r.amount >= 0
    {
      var bucket := if key in buckets then buckets[key] else Bucket(limit, now);
      var toAdd := ((now - bucket.lastRefill) / refill).Floor;
      if toAdd > 0 {
        bucket := Bucket(Min(limit, bucket.tokens + toAdd), bucket.lastRefill + Cost(refill, toAdd));
      }
      if bucket.tokens >= limit { bucket := bucket.(lastRefill := now); }
      var remaining := bucket.tokens - tokens;
      if allowOverflow || remaining >= 0 {
        bucket := bucket.(tokens := remaining);
        buckets := buckets[key := bucket];
        return Answer(remaining, Max(0.0, now - bucket.lastRefill), true);
      }
      if key !in buckets {
        buckets := buckets[key := bucket];
      } else if toAdd > 0 || bucket.lastRefill == now {
        buckets := buckets[key := bucket];
      }
      return Answer(remaining, Max(0.0, now - bucket.lastRefill), false);
    }
  }

  // ---- Runs ----

  datatype Request = Request(now: real, tokens: nat)

  /** Requests at times that do not go back, from a start on. */
  ghost predicate InTime(requests: seq<Request>, start: real) {
    forall i :: 0 <= i < |requests| ==> start <= requests[i].now && forall j :: i < j < |requests| ==> requests[i].now <= requests[j].now
  }

  function Until(requests: seq<Request>, start: real): real {
    if requests == [] then start else requests[|requests| - 1].now
  }

  function FixedRun(c: Option<Counter>, requests: seq<Request>, limit: int, refill: real): (Option<Counter>, int) {
    if requests == [] then (c, 0)
    else
      var before := FixedRun(c, requests[..|requests| - 1], limit, refill);
      var last := requests[|requests| - 1];
      var step := FixedStep(before.0, last.now, last.tokens, Some(limit), refill);
      (step.0, before.1 + if step.1.granted then last.tokens else 0)
  }

  function BucketRun(b: Option<Bucket>, requests: seq<Request>, limit: int, refill: real): (Option<Bucket>, int)
    requires refill > 0.0
  {
    if requests == [] then (b, 0)
    else
      var before := BucketRun(b, requests[..|requests| - 1], limit, refill);
      var last := requests[|requests| - 1];
      var step := BucketStep(before.0, last.now, last.tokens, limit, refill, false);
      (Some(step.0), before.1 + if step.1.granted then last.tokens else 0)
  }

  /** A counter whose window has begun: its end has moved on by one refill time for each token. */
  ghost predicate Begun(c: Option<Counter>, now: real, limit: int, refill: real) {
    c.Some? ==> 0 <= c.value.count <= limit && c.value.expiresAt - Cost(refill, c.value.count) <= now
  }

  /** When everything granted so far is paid for. */
  function PaidUntil(c: Option<Counter>, start: real): real {
    if c.None? then start else Max(start, c.value.expiresAt)
  }

  lemma CostAdds(refill: real, a: int, b: int)
    ensures Cost(refill, a + b) == Cost(refill, a) + Cost(refill, b)
  {
    assert (a + b) as real == a as real + b as real;
  }

  lemma CostGrows(refill: real, a: int, b: int)
    requires refill > 0.0 && a <= b
    ensures Cost(refill, a) <= Cost(refill, b)
  {
    assert a as real <= b as real;
  }

  lemma CostOne(refill: real)
    ensures Cost(refill, 1) == refill && Cost(refill, 0) == 0.0
  {
  }

  lemma FixedStepPays(c: Option<Counter>, now: real, tokens: nat, limit: int, refill: real, last: real, start: real)
    requires refill > 0.0 && limit >= 0 && start <= last <= now && Begun(c, last, limit, refill)
    ensures var r := FixedStep(c, now, tokens, Some(limit), refill);
            && Begun(r.0, now, limit, refill)
            && PaidUntil(r.0, start) >= PaidUntil(c, start) + if r.1.granted then Cost(refill, tokens) else 0.0
  {
    hide Cost;
    CostOne(refill);
    var window := CurrentWindow(c, now);
    CostAdds(refill, window.count, tokens);
    CostGrows(refill, 0, tokens);
  }

  lemma {:induction false} FixedRunPays(c: Option<Counter>, requests: seq<Request>, limit: int, refill: real, start: real)
    requires refill > 0.0 && limit >= 0 && InTime(requests, start) && Begun(c, start, limit, refill)
    ensures var r := FixedRun(c, requests, limit, refill);
            && Begun(r.0, Until(requests, start), limit, refill)
            && PaidUntil(r.0, start) >= PaidUntil(c, start) + Cost(refill, r.1)
  {
    hide Cost;
    CostOne(refill);
    if requests != [] {
      var front, last := requests[..|requests| - 1], requests[|requests| - 1];
      FixedRunPays(c, front, limit, refill, start);
      var before := FixedRun(c, front, limit, refill);
      assert Until(front, start) <= last.now;
      FixedStepPays(before.0, last.now, last.tokens, limit, refill, Until(front, start), start);
      CostAdds(refill, before.1, last.tokens);
      hide FixedStep, Begun, PaidUntil;
    }
  }

  /** Tokens granted since a time never exceed the limit and one for each refill time since. */
  lemma FixedBound(c: Option<Counter>, requests: seq<Request>, limit: int, refill: real, start: real)
    requires refill > 0.0 && limit >= 0 && InTime(requests, start) && Begun(c, start, limit, refill)
    ensures var granted := FixedRun(c, requests, limit, refill).1;
            granted as real <= limit as real + (Until(requests, start) - start) / refill
  {
    hide Cost;
    CostOne(refill);
    var r := FixedRun(c, requests, limit, refill);
    var end := Until(requests, start);
    FixedRunPays(c, requests, limit, refill, start);
    if r.0.Some? { CostGrows(refill, r.0.value.count, limit); }
    CostGrows(refill, 0, limit);
    hide FixedRun;
    assert start <= end;
    assert Cost(refill, r.1) <= Cost(refill, limit) + (end - start);
    Divide(refill, r.1, limit, end - start);
  }

  /** The limit can be reached: of requests for one token each, all at one time and under a new window, as
      many are granted as the limit says. */
  lemma {:induction false} FixedBurst(c: Option<Counter>, now: real, n: nat, limit: nat, refill: real)
    requires refill > 0.0 && (c.None? || c.value.expiresAt <= now)
    ensures var r := FixedRun(c, Burst(now, n), limit, refill);
            && r.1 == Min(n, limit)
            && (n > 0 && limit > 0 ==> r.0.Some? && r.0.value.count == Min(n, limit) && r.0.value.expiresAt > now)
            && (n == 0 || limit == 0 ==> r.0 == c)
  {
    if n > 0 {
      var burst := Burst(now, n);
      assert burst[..n - 1] == Burst(now, n - 1) && burst[n - 1] == Request(now, 1);
      FixedBurst(c, now, n - 1, limit, refill);
      CostOne(refill);
      hide Cost;
    }
  }

  function Burst(now: real, n: nat): seq<Request> {
    seq(n, _ => Request(now, 1))
  }

  /** The delay says when the window starts over: until then whatever is asked for comes on top of what was
      granted in it, and from then on it stands alone. */
  lemma WindowEnds(c: Option<Counter>, now: real, tokens: nat, limit: Option<int>, refill: real, more: nat, later: real)
    requires refill > 0.0 && now <= later
    ensures var r := FixedStep(c, now, tokens, limit, refill);
            var spent := if r.1.granted then r.1.amount else r.1.amount - tokens;
            FixedStep(r.0, later, more, None, refill).1.amount == more + if later < now + r.1.delay then spent else 0
  {
    CostGrows(refill, 0, tokens);
    CostOne(refill);
    hide Cost;
  }

  /** A refused request of at most the limit is refused until its delay is over and granted from then on. */
  lemma RefusedUntil(c: Option<Counter>, now: real, tokens: nat, limit: int, refill: real, later: real)
    requires refill > 0.0 && tokens <= limit && now <= later
    requires !FixedStep(c, now, tokens, Some(limit), refill).1.granted
    ensures var r := FixedStep(c, now, tokens, Some(limit), refill);
            r.1.delay > 0.0 && (FixedStep(r.0, later, tokens, Some(limit), refill).1.granted <==> later >= now + r.1.delay)
  {
    hide Cost;
  }

  lemma Divide(refill: real, granted: int, limit: int, elapsed: real)
    requires refill > 0.0 && Cost(refill, granted) <= Cost(refill, limit) + elapsed
    ensures granted as real <= limit as real + elapsed / refill
  {
    var share := elapsed / refill;
    assert refill * share == elapsed;
    Less(refill, granted as real, limit as real + share);
  }

  lemma Less(refill: real, x: real, y: real)
    requires refill > 0.0
    ensures refill * x <= refill * y ==> x <= y
  {
    if x > y { assert refill * (x - y) > 0.0; }
  }

  // ---- The bucket ----

  /** A bucket in use: not over its limit, not overdrawn, refilled in the past. */
  ghost predicate InUse(b: Option<Bucket>, now: real, limit: int) {
    b.Some? ==> 0 <= b.value.tokens <= limit && b.value.lastRefill <= now
  }

  /** What a bucket holds at a time, in refill times: its tokens and the part of one that has come in. */
  function Level(b: Option<Bucket>, now: real, limit: int, refill: real): real {
    if b.None? then Cost(refill, limit)
    else
      var held := Cost(refill, b.value.tokens) + (now - b.value.lastRefill);
      if held <= Cost(refill, limit) then held else Cost(refill, limit)
  }

  lemma WholeTokens(elapsed: real, refill: real)
    requires refill > 0.0 && elapsed >= 0.0
    ensures var n := (elapsed / refill).Floor; n >= 0 && Cost(refill, n) <= elapsed && elapsed - Cost(refill, n) < refill
  {
    assert refill * (elapsed / refill) == elapsed;
    WholeShare(elapsed, refill, elapsed / refill);
  }

  lemma WholeShare(elapsed: real, refill: real, share: real)
    requires refill > 0.0 && elapsed >= 0.0 && refill * share == elapsed
    ensures var n := share.Floor; n >= 0 && Cost(refill, n) <= elapsed && elapsed - Cost(refill, n) < refill
  {
    assert share >= 0.0;
    Between(refill, share.Floor as real, share, elapsed);
  }

  lemma Between(refill: real, low: real, x: real, y: real)
    requires refill > 0.0 && low <= x < low + 1.0 && y == refill * x
    ensures refill * low <= y && y - refill * low < refill
  {
    var part := x - low;
    assert y - refill * low == refill * part;
    Share(refill, part);
  }

  lemma Share(refill: real, part: real)
    requires refill > 0.0 && 0.0 <= part < 1.0
    ensures 0.0 <= refill * part < refill
  {
    Positive(refill, 1.0 - part);
    assert refill * (1.0 - part) == refill - refill * part;
  }

  lemma Positive(a: real, b: real)
    requires a > 0.0 && b > 0.0
    ensures a * b > 0.0
  {
  }

  /** Refilling in whole tokens neither adds to nor takes from what the bucket holds. */
  lemma RefillKeepsLevel(b: Option<Bucket>, now: real, limit: int, refill: real)
    requires refill > 0.0 && limit >= 0 && InUse(b, now, limit)
    ensures var r := Refilled(b, now, limit, refill);
            && InUse(Some(r), now, limit) && Level(Some(r), now, limit, refill) == Level(b, now, limit, refill)
            && Cost(refill, r.tokens) + (now - r.lastRefill) == Level(b, now, limit, refill)
            && (r.tokens < limit ==> now - r.lastRefill < refill)
  {
    hide Cost;
    CostOne(refill);
    var bucket := if b.None? then Bucket(limit, now) else b.value;
    WholeTokens(now - bucket.lastRefill, refill);
    var n := ((now - bucket.lastRefill) / refill).Floor;
    CostAdds(refill, bucket.tokens, n);
    CostAdds(refill, n, 1);
    Capped(bucket.tokens + n, limit, refill, now - bucket.lastRefill - Cost(refill, n));
  }

  /** Below the limit a part of a token cannot reach it; at the limit or over it the level is the limit. */
  lemma Capped(tokens: int, limit: int, refill: real, rest: real)
    requires refill > 0.0 && 0.0 <= rest < refill
    ensures tokens < limit ==> Cost(refill, tokens) + rest < Cost(refill, limit)
    ensures tokens >= limit ==> Cost(refill, tokens) + rest >= Cost(refill, limit)
  {
    hide Cost;
    CostOne(refill);
    if tokens < limit {
      CostGrows(refill, tokens + 1, limit);
      CostAdds(refill, tokens, 1);
    } else {
      CostGrows(refill, limit, tokens);
    }
  }

  lemma BucketStepPays(b: Option<Bucket>, now: real, tokens: nat, limit: int, refill: real)
    requires refill > 0.0 && limit >= 0 && InUse(b, now, limit)
    ensures var r := BucketStep(b, now, tokens, limit, refill, false);
            && InUse(Some(r.0), now, limit)
            && Level(Some(r.0), now, limit, refill) + (if r.1.granted then Cost(refill, tokens) else 0.0) == Level(b, now, limit, refill)
  {
    hide Cost;
    CostOne(refill);
    var bucket := Refilled(b, now, limit, refill);
    RefillKeepsLevel(b, now, limit, refill);
    hide Refilled;
    if bucket.tokens - tokens >= 0 {
      CostAdds(refill, bucket.tokens - tokens, tokens);
      CostGrows(refill, 0, tokens);
    }
  }

  lemma LevelGrows(b: Option<Bucket>, from: real, now: real, limit: int, refill: real)
    requires refill > 0.0 && limit >= 0 && from <= now && InUse(b, from, limit)
    ensures InUse(b, now, limit) && Level(b, now, limit, refill) <= Level(b, from, limit, refill) + (now - from)
  {
    hide Cost;
    CostOne(refill);
  }

  lemma {:induction false} BucketRunPays(b: Option<Bucket>, requests: seq<Request>, limit: int, refill: real, start: real)
    requires refill > 0.0 && limit >= 0 && InTime(requests, start) && InUse(b, start, limit)
    ensures var r := BucketRun(b, requests, limit, refill);
            && InUse(r.0, Until(requests, start), limit)
            && Level(r.0, Until(requests, start), limit, refill) + Cost(refill, r.1)
               <= Level(b, start, limit, refill) + (Until(requests, start) - start)
  {
    hide Cost;
    CostOne(refill);
    if requests != [] {
      var front, last := requests[..|requests| - 1], requests[|requests| - 1];
      BucketRunPays(b, front, limit, refill, start);
      var before := BucketRun(b, front, limit, refill);
      assert Until(front, start) <= last.now;
      LevelGrows(before.0, Until(front, start), last.now, limit, refill);
      BucketStepPays(before.0, last.now, last.tokens, limit, refill);
      CostAdds(refill, before.1, last.tokens);
      hide BucketStep, Level;
    }
  }

  /** The same bound for the bucket. */
  lemma BucketBound(b: Option<Bucket>, requests: seq<Request>, limit: int, refill: real, start: real)
    requires refill > 0.0 && limit >= 0 && InTime(requests, start) && InUse(b, start, limit)
    ensures var granted := BucketRun(b, requests, limit, refill).1;
            granted as real <= limit as real + (Until(requests, start) - start) / refill
  {
    hide Cost;
    CostOne(refill);
    var r := BucketRun(b, requests, limit, refill);
    BucketRunPays(b, requests, limit, refill, start);
    if r.0.Some? { CostGrows(refill, 0, r.0.value.tokens); }
    CostGrows(refill, 0, limit);
    hide BucketRun, Level;
    Divide(refill, r.1, limit, Until(requests, start) - start);
  }

  /** A refused request of at most the limit is granted, with nothing left over, when it is next tried
      once the missing tokens have come in, and that time is not past. */
  lemma RefusedSucceedsLater(b: Option<Bucket>, now: real, tokens: nat, limit: int, refill: real)
    requires refill > 0.0 && InUse(b, now, limit) && tokens <= limit
    requires !BucketStep(b, now, tokens, limit, refill, false).1.granted
    ensures var r := BucketStep(b, now, tokens, limit, refill, false);
            var later := r.0.lastRefill + Cost(refill, -r.1.amount);
            && later > now
            && BucketStep(Some(r.0), later, tokens, limit, refill, false).1.granted
            && BucketStep(Some(r.0), later, tokens, limit, refill, false).1.amount == 0
  {
    var bucket := Refilled(b, now, limit, refill);
    RefillKeepsLevel(b, now, limit, refill);
    var missing := tokens - bucket.tokens;
    var later := bucket.lastRefill + Cost(refill, missing);
    CostOne(refill);
    CostGrows(refill, 1, missing);
    RefilledLater(bucket, missing, limit, refill);
    hide Refilled, Cost, Level;
  }

  /** So many whole tokens have come in exactly when the time for them has passed. */
  lemma TokensIn(elapsed: real, refill: real, k: int)
    requires refill > 0.0 && elapsed >= 0.0
    ensures (elapsed / refill).Floor >= 0 && ((elapsed / refill).Floor >= k <==> elapsed >= Cost(refill, k))
  {
    var n := (elapsed / refill).Floor;
    WholeTokens(elapsed, refill);
    CostAdds(refill, n, 1);
    CostOne(refill);
    if n >= k { CostGrows(refill, k, n); } else { CostGrows(refill, n + 1, k); }
    hide Cost;
  }

  /** When the next request is granted, after one that was granted, refused or allowed to overdraw the bucket:
      at once if what is left is enough, else exactly from the time on at which the missing tokens have come
      in. The delay says how much of the first of them is there already. */
  lemma GrantedFrom(b: Option<Bucket>, now: real, tokens: nat, limit: int, refill: real, allowOverflow: bool,
                    more: nat, later: real)
    requires refill > 0.0 && (b.Some? ==> b.value.tokens <= limit && b.value.lastRefill <= now)
    requires more <= limit && now <= later
    ensures var r := BucketStep(b, now, tokens, limit, refill, allowOverflow);
            var left := if r.1.granted then r.1.amount else r.1.amount + tokens;
            BucketStep(Some(r.0), later, more, limit, refill, false).1.granted <==>
              more <= left || later >= now - r.1.delay + Cost(refill, more - left)
  {
    var bucket := if b.None? then Bucket(limit, now) else b.value;
    TokensIn(now - bucket.lastRefill, refill, 0);
    WholeTokens(now - bucket.lastRefill, refill);
    var r := BucketStep(b, now, tokens, limit, refill, allowOverflow);
    assert r.0.lastRefill <= now && r.1.delay == now - r.0.lastRefill;
    TokensIn(later - r.0.lastRefill, refill, more - r.0.tokens);
    hide Cost;
  }

  /** The limit can be reached: a new bucket grants as many tokens at one time as its limit says. */
  lemma {:induction false} BucketBurst(now: real, n: nat, limit: nat, refill: real)
    requires refill > 0.0
    ensures var r := BucketRun(None, Burst(now, n), limit, refill);
            && r.1 == Min(n, limit)
            && (if n == 0 then r.0 == None else r.0 == Some(Bucket(limit - Min(n, limit), now)))
  {
    if n > 0 {
      var burst := Burst(now, n);
      assert burst[..n - 1] == Burst(now, n - 1) && burst[n - 1] == Request(now, 1);
      BucketBurst(now, n - 1, limit, refill);
      assert ((now - now) / refill).Floor == 0;
      hide Cost;
    }
  }

  /** Whole tokens come in exactly on time. */
  lemma RefilledLater(b: Bucket, missing: nat, limit: int, refill: real)
    requires refill > 0.0 && missing >= 1 && b.tokens + missing <= limit
    ensures Refilled(Some(b), b.lastRefill + Cost(refill, missing), limit, refill).tokens == b.tokens + missing
  {
    var elapsed := b.lastRefill + Cost(refill, missing) - b.lastRefill;
    assert elapsed / refill == missing as real;
    assert (elapsed / refill).Floor == missing;
  }
}
