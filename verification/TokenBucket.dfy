/** The Redis token bucket (server/shared/middleware/ratelimit.go). Lua numbers are
    reals here; the clock is what callers send. */
module TokenBucket {
  import opened Bytes

  /** Tokens per second and bucket size. */
  datatype Limit = Limit(rate: real, capacity: real)

  ghost predicate Valid(l: Limit) {
    l.rate > 0.0 && l.capacity >= 0.0
  }

  /** What the two keys of a bucket hold. */
  datatype Bucket = Bucket(tokens: real, last: real)

  datatype Call = Call(now: real, cost: real)

  function Elapsed(last: real, now: real): real {
    if now > last then now - last else 0.0
  }

  /** What the rate adds in a time. */
  function Earned(l: Limit, time: real): real {
    time * l.rate
  }

  lemma {:induction false} EarnedAdds(l: Limit, a: real, b: real)
    ensures Earned(l, a + b) == Earned(l, a) + Earned(l, b) && Earned(l, 0.0) == 0.0
  {
  }

  lemma {:induction false} EarnedMonotone(l: Limit, a: real, b: real)
    requires Valid(l) && a <= b
    ensures Earned(l, a) <= Earned(l, b) && Earned(l, 0.0) == 0.0
  {
    assert (b - a) * l.rate >= 0.0;
  }

  function Min(a: real, b: real): real {
    if a <= b then a else b
  }

  function Refilled(l: Limit, b: Option<Bucket>, now: real): real {
    match b
    case None => Min(l.capacity, l.capacity + Earned(l, Elapsed(now, now)))
    case Some(b) => Min(l.capacity, b.tokens + Earned(l, Elapsed(b.last, now)))
  }

  predicate Grants(l: Limit, b: Option<Bucket>, c: Call) {
    Refilled(l, b, c.now) >= c.cost
  }

  function After(l: Limit, b: Option<Bucket>, c: Call): Bucket {
    var refilled := Refilled(l, b, c.now);
    Bucket(if refilled >= c.cost then refilled - c.cost else refilled, c.now)
  }

  function Run(l: Limit, calls: seq<Call>): Option<Bucket> {
    if calls == [] then None else Some(After(l, Run(l, calls[..|calls| - 1]), calls[|calls| - 1]))
  }

  /** What the last call of the sequence was granted. */
  function LastGrant(l: Limit, calls: seq<Call>): real
    requires calls != []
  {
    var c := calls[|calls| - 1];
    if Grants(l, Run(l, calls[..|calls| - 1]), c) then c.cost else 0.0
  }

  /** The total granted by the calls from `i` on. */
  function Granted(l: Limit, calls: seq<Call>, i: nat): real
    requires i <= |calls|
  {
    if i == |calls| then 0.0 else Granted(l, calls[..|calls| - 1], i) + LastGrant(l, calls)
  }

  /** The time the clock moved forward between call `i` and the last one. */
  function Forward(calls: seq<Call>, i: nat): real
    requires i < |calls|
  {
    var last := |calls| - 1;
    if i == last then 0.0 else Forward(calls[..last], i) + Elapsed(calls[last - 1].now, calls[last].now)
  }

  ghost predicate NonDecreasing(calls: seq<Call>) {
    forall i, j :: 0 <= i <= j < |calls| ==> calls[i].now <= calls[j].now
  }

  /** What call `i` and those after it leave of a full bucket. */
  function Slack(l: Limit, calls: seq<Call>, i: nat): real
    requires i < |calls|
  {
    l.capacity + Earned(l, Forward(calls, i)) - Granted(l, calls, i)
  }

  lemma {:induction false} SlackStep(l: Limit, calls: seq<Call>, i: nat)
    requires i < |calls|
    ensures var last := |calls| - 1;
      Slack(l, calls, i) == (if i == last then l.capacity else
        Slack(l, calls[..last], i) + Earned(l, Elapsed(calls[last - 1].now, calls[last].now))) - LastGrant(l, calls)
  {
    hide Earned, LastGrant;
    var last := |calls| - 1;
    EarnedAdds(l, 0.0, 0.0);
    if i == last {
      assert Granted(l, calls[..last], i) == 0.0;
    } else {
      EarnedAdds(l, Forward(calls[..last], i), Elapsed(calls[last - 1].now, calls[last].now));
    }
  }

  lemma {:induction false} RunStep(l: Limit, calls: seq<Call>)
    requires calls != []
    ensures var b := Run(l, calls).value; var was := Run(l, calls[..|calls| - 1]); var c := calls[|calls| - 1];
      && Run(l, calls).Some? && b.last == c.now && b.tokens == Refilled(l, was, c.now) - LastGrant(l, calls)
      && Refilled(l, was, c.now) == if |calls| == 1 then l.capacity
         else Min(l.capacity, was.value.tokens + Earned(l, Elapsed(calls[|calls| - 2].now, c.now)))
  {
    hide Earned;
    EarnedAdds(l, 0.0, 0.0);
    if |calls| > 1 {
      var front := calls[..|calls| - 1];
      assert Run(l, front).value.last == front[|front| - 1].now;
    }
  }

  /** The stored token count is the least slack of any window that ends now. */
  lemma {:induction false} TokensAreLeastSlack(l: Limit, calls: seq<Call>) returns (tight: nat)
    requires calls != []
    ensures Run(l, calls).Some? && tight < |calls| && Run(l, calls).value.tokens == Slack(l, calls, tight)
    ensures forall i :: 0 <= i < |calls| ==> Run(l, calls).value.tokens <= Slack(l, calls, i)
    decreases |calls|
  {
    hide Run, Slack, LastGrant, Refilled, Earned;
    var last := |calls| - 1;
    RunStep(l, calls);
    tight := last;
    SlackStep(l, calls, last);
    if last == 0 {
    } else {
      var t := TokensAreLeastSlack(l, calls[..last]);
      SlackStep(l, calls, t);
      var d := Earned(l, Elapsed(calls[last - 1].now, calls[last].now));
      if Run(l, calls[..last]).value.tokens + d < l.capacity {
        tight := t;
      }
      forall i | 0 <= i < |calls| ensures Run(l, calls).value.tokens <= Slack(l, calls, i) {
        SlackStep(l, calls, i);
      }
    }
  }

  /** The room every window ending with this call leaves it: the window of the call
      alone, and the one from each earlier call. */
  ghost predicate Fits(l: Limit, calls: seq<Call>, c: Call) {
    && c.cost <= l.capacity
    && forall i :: 0 <= i < |calls| ==>
         Granted(l, calls, i) + c.cost <= l.capacity +
           Earned(l, Forward(calls, i) + Elapsed(calls[|calls| - 1].now, c.now))
  }

  /** A call is granted if and only if that keeps every window, from any earlier call to
      this one, within the capacity plus the refill of its time: the limiter never
      exceeds a window and never refuses without need. */
  lemma {:induction false} GrantExact(l: Limit, calls: seq<Call>, c: Call)
    ensures Grants(l, Run(l, calls), c) <==> Fits(l, calls, c)
  {
    hide Earned, Granted, Forward;
    EarnedAdds(l, 0.0, 0.0);
    if calls != [] {
      var last := |calls| - 1;
      var d := Elapsed(calls[last].now, c.now);
      RunStep(l, calls);
      hide Run;
      var tight := TokensAreLeastSlack(l, calls);
      forall i | 0 <= i < |calls|
        ensures l.capacity + Earned(l, Forward(calls, i) + d) == Slack(l, calls, i) + Granted(l, calls, i) +
          Earned(l, d)
      {
        EarnedAdds(l, Forward(calls, i), d);
      }
    }
  }

  lemma {:induction false} TokensNotNegative(l: Limit, calls: seq<Call>)
    requires Valid(l) && calls != []
    ensures Run(l, calls).Some? && Run(l, calls).value.tokens >= 0.0
    decreases |calls|
  {
    hide Earned;
    var last := |calls| - 1;
    EarnedAdds(l, 0.0, 0.0);
    RunStep(l, calls);
    if last == 0 {
    } else {
      TokensNotNegative(l, calls[..last]);
      EarnedMonotone(l, 0.0, Elapsed(calls[last - 1].now, calls[last].now));
    }
  }

  /** No window of calls is granted more than the capacity plus the rate times the time
      the clock moved forward in it. */
  lemma {:induction false} WindowBound(l: Limit, calls: seq<Call>, i: nat)
    requires Valid(l) && i < |calls|
    ensures Granted(l, calls, i) <= l.capacity + Earned(l, Forward(calls, i))
  {
    hide Earned, Granted, Forward, Run;
    TokensNotNegative(l, calls);
    var tight := TokensAreLeastSlack(l, calls);
    assert Run(l, calls).value.tokens <= Slack(l, calls, i);
  }

  // ---- The bound on a window's length ----

  function Times(calls: seq<Call>): (times: seq<real>)
    ensures |times| == |calls| && forall k :: 0 <= k < |calls| ==> times[k] == calls[k].now
  {
    seq(|calls|, k requires 0 <= k < |calls| => calls[k].now)
  }

  /** The most the bucket can earn after call `i`: no gap between two calls refills more
      than the capacity, and a clock that goes back earns nothing. */
  function Refills(l: Limit, times: seq<real>, i: nat): real
    requires i < |times|
  {
    var last := |times| - 1;
    if i == last then 0.0
    else Refills(l, times[..last], i) + Min(l.capacity, Earned(l, Elapsed(times[last - 1], times[last])))
  }

  /** A window is granted at most the capacity and what can be earned in it, whatever
      the costs and however the clock moves. */
  lemma {:induction false} RefillBound(l: Limit, calls: seq<Call>, i: nat)
    requires Valid(l) && i < |calls|
    ensures Run(l, calls).Some?
    ensures Granted(l, calls, i) + Run(l, calls).value.tokens <= l.capacity + Refills(l, Times(calls), i)
    decreases |calls|
  {
    hide Earned, Run, LastGrant, Refilled;
    var last := |calls| - 1;
    RunStep(l, calls);
    if i == last {
      assert Granted(l, calls[..last], i) == 0.0;
    } else {
      RefillBound(l, calls[..last], i);
      TokensNotNegative(l, calls[..last]);
      assert Times(calls)[..last] == Times(calls[..last]);
    }
  }

  /** Costs that take all there is from call `i` on: nothing before it, the whole bucket
      at it, and after it whatever was earned since the call before. */
  function Greedy(l: Limit, times: seq<real>, i: nat): (calls: seq<Call>)
    ensures Times(calls) == times
  {
    if times == [] then []
    else
      var last := |times| - 1;
      var cost := if last < i then 0.0 else if last == i then l.capacity
                  else Min(l.capacity, Earned(l, Elapsed(times[last - 1], times[last])));
      Greedy(l, times[..last], i) + [Call(times[last], cost)]
  }

  ghost predicate NonNegativeCosts(calls: seq<Call>) {
    forall k :: 0 <= k < |calls| ==> calls[k].cost >= 0.0
  }

  lemma {:induction false} GreedyStep(l: Limit, times: seq<real>, i: nat)
    requires times != []
    ensures var last := |times| - 1; var calls := Greedy(l, times, i);
      && calls[..last] == Greedy(l, times[..last], i)
      && calls[last].now == times[last]
      && calls[last].cost == (if last < i then 0.0 else if last == i then l.capacity
                              else Min(l.capacity, Earned(l, Elapsed(times[last - 1], times[last]))))
  {
    hide Earned;
  }

  /** The greedy costs are non-negative and attain the bound. */
  lemma {:induction false} GreedyAttains(l: Limit, times: seq<real>, i: nat)
    requires Valid(l) && times != []
    ensures var calls := Greedy(l, times, i);
      && NonNegativeCosts(calls) && Run(l, calls).Some?
      && Run(l, calls).value.tokens == (if |times| <= i then l.capacity else 0.0)
      && (i < |times| ==> Granted(l, calls, i) == l.capacity + Refills(l, times, i))
    decreases |times|
  {
    hide Earned, Greedy, Run;
    var last := |times| - 1;
    var calls, front := Greedy(l, times, i), Greedy(l, times[..last], i);
    GreedyStep(l, times, i);
    RunStep(l, calls);
    if last == 0 {
      assert front == [];
    } else {
      GreedyAttains(l, times[..last], i);
      EarnedMonotone(l, 0.0, Elapsed(times[last - 1], times[last]));
      assert calls[last - 1] == front[last - 1];
    }
    assert Granted(l, front, last) == 0.0;
  }

  /** Every sequence of calls at these times keeps its window from call `i` within the
      capacity plus the refill of the window's length. */
  ghost predicate LengthBoundHolds(l: Limit, times: seq<real>, i: nat)
    requires i < |times|
  {
    forall calls: seq<Call> :: Times(calls) == times && NonNegativeCosts(calls) ==>
      Granted(l, calls, i) <= l.capacity + Earned(l, times[|times| - 1] - times[i])
  }

  /** The window's length bounds what it is granted, for all costs, if and only if the
      clock readings in it earn no more than that length does. */
  lemma {:induction false} LengthBoundExact(l: Limit, times: seq<real>, i: nat)
    requires Valid(l) && i < |times|
    ensures LengthBoundHolds(l, times, i) <==> Refills(l, times, i) <= Earned(l, times[|times| - 1] - times[i])
  {
    hide Earned, Granted, Refills, Run, NonNegativeCosts;
    var bound := l.capacity + Earned(l, times[|times| - 1] - times[i]);
    if LengthBoundHolds(l, times, i) {
      GreedyAttains(l, times, i);
      assert Granted(l, Greedy(l, times, i), i) <= bound;
    }
    if Refills(l, times, i) <= Earned(l, times[|times| - 1] - times[i]) {
      forall calls: seq<Call> | Times(calls) == times && NonNegativeCosts(calls) ensures Granted(l, calls, i) <= bound {
        RefillBound(l, calls, i);
        TokensNotNegative(l, calls);
      }
    }
  }

  lemma {:induction false} SteadyRefills(l: Limit, times: seq<real>, i: nat)
    requires Valid(l) && i < |times| && forall j, k :: 0 <= j <= k < |times| ==> times[j] <= times[k]
    ensures Refills(l, times, i) <= Earned(l, times[|times| - 1] - times[i])
    decreases |times|
  {
    hide Earned;
    var last := |times| - 1;
    EarnedAdds(l, 0.0, 0.0);
    if i < last {
      SteadyRefills(l, times[..last], i);
      EarnedAdds(l, times[last - 1] - times[i], times[last] - times[last - 1]);
    } else {
      assert times[last] - times[i] == 0.0;
    }
  }

  /** A clock that never goes back is such a clock. */
  lemma {:induction false} SteadyClockBound(l: Limit, calls: seq<Call>, i: nat)
    requires Valid(l) && i < |calls| && NonDecreasing(calls)
    ensures Granted(l, calls, i) <= l.capacity + Earned(l, calls[|calls| - 1].now - calls[i].now)
  {
    hide Earned, Granted, Refills, Run;
    SteadyRefills(l, Times(calls), i);
    RefillBound(l, calls, i);
    TokensNotNegative(l, calls);
  }

  /** Clocks that disagree are not: a replica that runs late, by however little,
      lets the others take more than a full bucket at one instant. */
  lemma {:induction false} SkewOvergrants(l: Limit, now: real, late: real)
    requires Valid(l) && l.capacity > 0.0 && late > 0.0
    ensures var again := Min(l.capacity, Earned(l, late));
      var calls := [Call(now, l.capacity), Call(now - late, l.capacity), Call(now, again)];
      Granted(l, calls, 0) == l.capacity + again > l.capacity + Earned(l, calls[2].now - calls[0].now)
  {
    var again := Min(l.capacity, Earned(l, late));
    var a, b, c := Call(now, l.capacity), Call(now - late, l.capacity), Call(now, again);
    var calls := [a, b, c];
    EarnedPositive(l, late);
    EarnedAdds(l, 0.0, 0.0);
    hide Earned;
    assert calls[..2] == [a, b] && [a, b][..1] == [a] && [a][..0] == [];
    assert Run(l, [a]) == Some(Bucket(0.0, now));
    assert Run(l, [a, b]) == Some(Bucket(0.0, now - late));
    assert Elapsed(now - late, now) == late;
    assert Grants(l, Run(l, [a, b]), c) && !Grants(l, Run(l, [a]), b);
    assert Granted(l, [], 0) == 0.0 && Granted(l, [a], 0) == l.capacity && Granted(l, [a, b], 0) == l.capacity;
  }

  lemma {:induction false} EarnedPositive(l: Limit, time: real)
    requires Valid(l) && time > 0.0
    ensures Earned(l, time) > 0.0
  {
  }

  // ---- Expiry ----

  /** math.ceil. */
  function Ceil(x: real): int {
    if x == x.Floor as real then x.Floor else x.Floor + 1
  }

  function Ttl(l: Limit): int
    requires l.rate != 0.0
  {
    Ceil(l.capacity / l.rate) + 1
  }

  /** Redis refuses any other time to live, and the script stops before it writes. */
  predicate Expirable(l: Limit) {
    l.rate != 0.0 && Ttl(l) >= 1
  }

  lemma {:induction false} TtlRefills(l: Limit)
    requires Valid(l)
    ensures Earned(l, Ttl(l) as real) >= l.capacity && Ttl(l) >= 1
  {
    var q := l.capacity / l.rate;
    assert q >= 0.0 && Earned(l, q) == l.capacity;
    assert Ttl(l) as real >= q;
    EarnedMonotone(l, q, Ttl(l) as real);
  }

  /** A bucket that has expired would have been full by then. */
  lemma {:induction false} ExpiredWasFull(l: Limit, b: Bucket, now: real)
    requires Valid(l) && b.tokens >= 0.0 && now >= b.last + Ttl(l) as real
    ensures Refilled(l, Some(b), now) == Refilled(l, None, now) == l.capacity
  {
    hide Earned, Ttl;
    TtlRefills(l);
    EarnedMonotone(l, Ttl(l) as real, Elapsed(b.last, now));
  }

  /** Runs in which Redis may also drop a bucket once its time to live has passed. */
  ghost predicate MayExpire(l: Limit, calls: seq<Call>, kept: seq<Option<Bucket>>)
    requires l.rate > 0.0
  {
    && |kept| == |calls| + 1 && kept[0] == None
    && forall i :: 0 <= i < |calls| ==>
         var b := Some(After(l, kept[i], calls[i]));
         kept[i + 1] == b
         || (kept[i + 1] == None && i + 1 < |calls| && calls[i + 1].now >= calls[i].now + Ttl(l) as real)
  }

  /** Dropping expired buckets changes no answer. */
  lemma {:induction false} ExpiryInvisible(l: Limit, calls: seq<Call>, kept: seq<Option<Bucket>>, n: nat)
    requires Valid(l) && MayExpire(l, calls, kept) && n < |calls|
    ensures Refilled(l, kept[n], calls[n].now) == Refilled(l, Run(l, calls[..n]), calls[n].now)
    ensures After(l, kept[n], calls[n]) == Run(l, calls[..n + 1]).value
    ensures Grants(l, kept[n], calls[n]) <==> Grants(l, Run(l, calls[..n]), calls[n])
  {
    hide Refilled;
    if n == 0 {
    } else {
      ExpiryInvisible(l, calls, kept, n - 1);
      var b := After(l, kept[n - 1], calls[n - 1]);
      assert Run(l, calls[..n]) == Some(b);
      TokensNotNegative(l, calls[..n]);
      if kept[n] == None {
        ExpiredWasFull(l, b, calls[n].now);
      }
    }
    assert calls[..n + 1][..n] == calls[..n];
  }

  // ---- The limiter over Redis ----

  const OPEN: Str := Ascii(":{")
  const TOKENS: Str := Ascii("}:tokens")
  const TS: Str := Ascii("}:ts")

  function TokensKey(prefix: Str, key: Str): Str {
    prefix + OPEN + key + TOKENS
  }

  function TsKey(prefix: Str, key: Str): Str {
    prefix + OPEN + key + TS
  }

  /** No two Redis keys of one limiter coincide. */
  lemma {:induction false} KeysApart(prefix: Str, a: Str, b: Str)
    ensures TokensKey(prefix, a) != TsKey(prefix, b)
    ensures TokensKey(prefix, a) == TokensKey(prefix, b) ==> a == b
    ensures TsKey(prefix, a) == TsKey(prefix, b) ==> a == b
  {
    var x, y := TokensKey(prefix, a), TsKey(prefix, b);
    assert x[|x| - 2] == TOKENS[6] == 110 && y[|y| - 2] == TS[2] == 116;
    var n := |prefix| + 2;
    assert a == x[n..n + |a|] && b == y[n..n + |b|];
    assert b == TokensKey(prefix, b)[n..n + |b|] && a == TsKey(prefix, a)[n..n + |a|];
  }

  class RateLimiter {
    const limit: Limit
    const prefix: Str
    /** The Redis keyspace the limiter works on. */
    var redis: map<Str, real>
    /** For how many seconds each key was last set. */
    var ttls: map<Str, int>

    constructor (limit: Limit, prefix: Str)
      ensures this.limit == limit && this.prefix == (if prefix == [] then Ascii("rl") else prefix)
      ensures redis == map[] && ttls == map[]
    {
      this.limit := limit;
      this.prefix := if prefix == [] then Ascii("rl") else prefix;
      redis, ttls := map[], map[];
    }

    function BucketOf(key: Str): Option<Bucket>
      reads this
    {
      var t, ts := TokensKey(prefix, key), TsKey(prefix, key);
      if t in redis && ts in redis then Some(Bucket(redis[t], redis[ts])) else None
    }

    /** A bucket's two keys are written, and expire, together. */
    ghost predicate Paired()
      reads this
    {
      forall key :: TokensKey(prefix, key) in redis <==> TsKey(prefix, key) in redis
    }

    /** Takes `cost` tokens from the key's bucket when it holds them, and touches no
        other bucket; a Redis failure, or a rate no time to live follows from, lets the
        call through. */
    method AllowN(key: Str, cost: int, now: real, fails: bool) returns (allowed: bool, err: bool)
      requires Paired()
      modifies this
      ensures Paired() && err == (fails || !Expirable(limit))
      ensures err ==> allowed && redis == old(redis) && ttls == old(ttls)
      ensures !err ==> (allowed <==> Grants(limit, old(BucketOf(key)), Call(now, cost as real)))
      ensures !err ==> BucketOf(key) == Some(After(limit, old(BucketOf(key)), Call(now, cost as real)))
      ensures !err ==> ttls == old(ttls)[TokensKey(prefix, key) := Ttl(limit)][TsKey(prefix, key) := Ttl(limit)]
      ensures forall other :: other != key ==> BucketOf(other) == old(BucketOf(other))
    {
      if fails || !Expirable(limit) {
        return true, true;
      }
      var tokensKey, tsKey := TokensKey(prefix, key), TsKey(prefix, key);
      var tokens, last := limit.capacity, now;
      if tokensKey in redis {
        tokens, last := redis[tokensKey], redis[tsKey];
      }
      var delta := if now - last > 0.0 then now - last else 0.0;
      var refilled := Min(limit.capacity, tokens + delta * limit.rate);
      assert refilled == Refilled(limit, BucketOf(key), now);
      KeysApart(prefix, key, key);
      allowed := refilled >= cost as real;
      if allowed {
        refilled := refilled - cost as real;
      }
      forall other ensures TokensKey(prefix, other) != tsKey && TsKey(prefix, other) != tokensKey
        ensures other != key ==> TokensKey(prefix, other) != tokensKey && TsKey(prefix, other) != tsKey
      {
        KeysApart(prefix, other, key);
        KeysApart(prefix, key, other);
      }
      hide TokensKey, TsKey;
      var ttl := Ceil(limit.capacity / limit.rate) + 1;
      redis, ttls := redis[tokensKey := refilled], ttls[tokensKey := ttl];
      redis, ttls := redis[tsKey := now], ttls[tsKey := ttl];
      assert BucketOf(key) == Some(Bucket(refilled, now));
      err := false;
    }
  }
}
