/**
The token bucket in front of the API.  Time is in seconds and tokens are fractional, both real;
one bucket's clock never goes backwards, because it is read under the bucket's lock.
*/
module RateLimit {
  import opened Options

  datatype Bucket = Bucket(tokens: real, lastRefill: real)

  /** Capacity and refill period; the rate is their quotient. */
  datatype Config = Config(capacity: nat, refillPeriod: real) {
    ghost predicate Valid() { refillPeriod > 0.0 }

    function Capacity(): real { capacity as real }

    function Rate(): real
      requires refillPeriod > 0.0
    {
      capacity as real / refillPeriod
    }
  }

  const UNREACHABLE_CAPACITY_RETRY_AFTER: nat := 86_400

  const NANOS_PER_SECOND: int := 1_000_000_000

  function Min(a: real, b: real): real { if a <= b then a else b }

  /** A clock that seems to have gone backwards counts as standing still. */
  function Elapsed(since: real, now: real): real { if now > since then now - since else 0.0 }

  function Fresh(config: Config, now: real): Bucket { Bucket(config.Capacity(), now) }

  function Refilled(config: Config, b: Bucket, now: real): Bucket
    requires config.Valid()
  {
    Bucket(Min(b.tokens + Elapsed(b.lastRefill, now) * config.Rate(), config.Capacity()), now)
  }

  predicate Admits(config: Config, b: Bucket, now: real)
    requires config.Valid()
  {
    Refilled(config, b, now).tokens >= 1.0
  }

  function Consumed(config: Config, b: Bucket, now: real): Bucket
    requires config.Valid()
  {
    var r := Refilled(config, b, now);
    if r.tokens >= 1.0 then r.(tokens := r.tokens - 1.0) else r
  }

  /**
  Seconds advertised to a caller refused with this many tokens: the wait to the nearest
  nanosecond, cut to whole seconds, plus one.
  */
  function RetryAfter(config: Config, tokens: real): (seconds: nat)
    requires config.Valid() && tokens < 1.0
  {
    if config.Rate() == 0.0 then UNREACHABLE_CAPACITY_RETRY_AFTER + 1
    else
      RateIsPositive(config);
      var nanos := ((1.0 - tokens) / config.Rate() * NANOS_PER_SECOND as real + 0.5).Floor;
      nanos / NANOS_PER_SECOND + 1
  }

  /** Nothing when admitted, else the seconds to wait. */
  function Answer(config: Config, b: Bucket, now: real): Option<nat>
    requires config.Valid()
  {
    if Admits(config, b, now) then None else Some(RetryAfter(config, Refilled(config, b, now).tokens))
  }

  lemma RateIsPositive(config: Config)
    requires config.Valid()
    ensures config.Rate() >= 0.0 && (config.Rate() == 0.0 <==> config.capacity == 0)
  {
    assert config.capacity > 0 ==> config.Rate() > 0.0;
  }

  /** Buckets by caller; a bucket is made full on first sight. */
  class RateLimiter {
    const config: Config
    var buckets: map<string, Bucket>

    constructor (capacity: nat, refillPeriod: real)
      ensures config.Valid() && config.capacity == capacity && buckets == map[]
      ensures refillPeriod >= 0.000000001 ==> config.refillPeriod == refillPeriod
    {
      // A zero period is lifted to one nanosecond.
      config := Config(capacity, if refillPeriod < 0.000000001 then 0.000000001 else refillPeriod);
      buckets := map[];
    }

    method TryConsume(key: string, now: real) returns (retryAfter: Option<nat>)
      requires config.Valid()
      modifies this`buckets
      ensures var b := if key in old(buckets) then old(buckets[key]) else Fresh(config, now);
        && buckets == old(buckets)[key := Consumed(config, b, now)]
        && retryAfter == Answer(config, b, now)
    {
      hide RetryAfter, Config.Rate;
      if key !in buckets {
        buckets := buckets[key := Bucket(config.Capacity(), now)];
      }
      var state := buckets[key];
      var elapsed := if now > state.lastRefill then now - state.lastRefill else 0.0;
      var tokens := Min(state.tokens + elapsed * config.Rate(), config.Capacity());
      assert Bucket(tokens, now) == Refilled(config, state, now);
      state := Bucket(tokens, now);
      if tokens >= 1.0 {
        buckets := buckets[key := Bucket(tokens - 1.0, now)];
        return None;
      }
      buckets := buckets[key := state];
      return Some(RetryAfter(config, tokens));
    }

    method Evict(key: string)
      modifies this`buckets
      ensures buckets == old(buckets) - {key}
    {
      buckets := buckets - {key};
    }
  }

  // ---------------------------------------------------------------- one bucket, whole runs

  ghost predicate Ascending(times: seq<real>) {
    forall i, j :: 0 <= i <= j < |times| ==> times[i] <= times[j]
  }

  function Run(config: Config, b: Bucket, times: seq<real>): Bucket
    requires config.Valid()
  {
    if times == [] then b
    else Consumed(config, Run(config, b, times[..|times| - 1]), times[|times| - 1])
  }

  function Answers(config: Config, b: Bucket, times: seq<real>): seq<Option<nat>>
    requires config.Valid()
  {
    if times == [] then []
    else
      var earlier := times[..|times| - 1];
      Answers(config, b, earlier) + [Answer(config, Run(config, b, earlier), times[|times| - 1])]
  }

  /** How many of the requests made in `[from, to]` were admitted. */
  function Admitted(config: Config, b: Bucket, times: seq<real>, from: real, to: real): nat
    requires config.Valid()
  {
    if times == [] then 0
    else
      var earlier, last := times[..|times| - 1], times[|times| - 1];
      Admitted(config, b, earlier, from, to)
      + (if from <= last <= to && Admits(config, Run(config, b, earlier), last) then 1 else 0)
  }

  ghost predicate InRange(config: Config, b: Bucket) {
    0.0 <= b.tokens <= config.Capacity()
  }

  /** `0 <= tokens <= capacity` throughout, whatever the request times. */
  lemma {:induction false} TokensStayInRange(config: Config, b: Bucket, times: seq<real>)
    requires config.Valid() && InRange(config, b)
    ensures InRange(config, Run(config, b, times))
    ensures times != [] ==> Run(config, b, times).lastRefill == times[|times| - 1]
  {
    if times != [] {
      var earlier := times[..|times| - 1];
      TokensStayInRange(config, b, earlier);
    }
  }

  /** What trickles in between two moments. */
  function Trickled(config: Config, from: real, to: real): real
    requires config.Valid()
  {
    config.Rate() * (to - from)
  }

  lemma TrickleAdds(config: Config, a: real, b: real, c: real)
    requires config.Valid()
    ensures Trickled(config, a, b) + Trickled(config, b, c) == Trickled(config, a, c)
  {
    hide Config.Rate;
  }

  lemma TrickleIsNotNegative(config: Config, a: real, b: real)
    requires config.Valid() && a <= b
    ensures Trickled(config, a, b) >= 0.0
  {
    RateIsPositive(config);
    hide Config.Rate;
  }

  lemma {:induction false} NothingBeforeTheWindow(config: Config, b: Bucket, times: seq<real>, from: real, to: real)
    requires config.Valid() && Ascending(times)
    requires times != [] ==> times[|times| - 1] < from
    ensures Admitted(config, b, times, from, to) == 0
  {
    if times != [] {
      NothingBeforeTheWindow(config, b, times[..|times| - 1], from, to);
    }
  }

  /** One request's entry in the account: it pays for its own admission. */
  lemma OneRequest(config: Config, b: Bucket, now: real)
    requires config.Valid() && InRange(config, b)
    ensures var paid := if Admits(config, b, now) then 1.0 else 0.0;
      && Consumed(config, b, now).tokens + paid <= config.Capacity()
      && (b.lastRefill <= now ==>
            Consumed(config, b, now).tokens + paid <= b.tokens + Trickled(config, b.lastRefill, now))
  {
    assert Elapsed(b.lastRefill, now) * config.Rate() == Trickled(config, Min(b.lastRefill, now), now);
  }

  /**
  The account behind the bound.  While the window is open, every admission so far has been paid
  for out of a full bucket and what has trickled in since, and what is left is still in the bucket.
  */
  lemma {:induction false} WindowAccount(config: Config, b: Bucket, times: seq<real>, from: real, to: real)
    requires config.Valid() && InRange(config, b) && Ascending(times)
    requires times != [] && from <= times[|times| - 1] <= to
    ensures Admitted(config, b, times, from, to) as real + Run(config, b, times).tokens
            <= config.Capacity() + Trickled(config, from, times[|times| - 1])
  {
    hide Refilled, Consumed, Trickled, Admits;
    var earlier, last := times[..|times| - 1], times[|times| - 1];
    TokensStayInRange(config, b, earlier);
    OneRequest(config, Run(config, b, earlier), last);
    TrickleIsNotNegative(config, from, last);
    if earlier == [] || earlier[|earlier| - 1] < from {
      NothingBeforeTheWindow(config, b, earlier, from, to);
    } else {
      var previous := earlier[|earlier| - 1];
      assert previous <= last;
      WindowAccount(config, b, earlier, from, to);
      TrickleAdds(config, from, previous, last);
    }
  }

  /** In any window of any run, admissions number at most the capacity plus what trickles in. */
  lemma {:induction false} WindowBound(config: Config, b: Bucket, times: seq<real>, from: real, to: real)
    requires config.Valid() && InRange(config, b) && Ascending(times) && from <= to
    ensures Admitted(config, b, times, from, to) as real <= config.Capacity() + Trickled(config, from, to)
  {
    hide Refilled, Consumed, Trickled, Admits;
    TrickleIsNotNegative(config, from, to);
    if times != [] {
      var last := times[|times| - 1];
      if last < from {
        NothingBeforeTheWindow(config, b, times, from, to);
      } else if last <= to {
        WindowAccount(config, b, times, from, to);
        TokensStayInRange(config, b, times);
        TrickleAdds(config, from, last, to);
        TrickleIsNotNegative(config, last, to);
      } else {
        WindowBound(config, b, times[..|times| - 1], from, to);
      }
    }
  }

  // ---------------------------------------------------------------- Retry-After

  /**
  An honest `Retry-After`.  A caller refused now, whose bucket nobody else draws on, is admitted at
  any moment from the advertised one on -- exactly when the capacity is at least one.
  */
  lemma RetryAfterIsHonest(config: Config, b: Bucket, now: real)
    requires config.Valid() && InRange(config, b) && !Admits(config, b, now)
    ensures var refused := Consumed(config, b, now);
      (forall later :: later >= now + RetryAfter(config, refused.tokens) as real ==> Admits(config, refused, later))
      <==> config.capacity >= 1
  {
    var refused := Consumed(config, b, now);
    var seconds := RetryAfter(config, refused.tokens);
    RateIsPositive(config);
    if config.capacity == 0 {
      NeverRefilled(config, refused, now + seconds as real);
    } else {
      forall later | later >= now + seconds as real ensures Admits(config, refused, later) {
        EnoughAfterTheWait(config, refused, later);
      }
    }
  }

  lemma NeverRefilled(config: Config, b: Bucket, later: real)
    requires config.Valid() && InRange(config, b) && config.capacity == 0
    ensures !Admits(config, b, later)
  {
  }

  lemma EnoughAfterTheWait(config: Config, b: Bucket, later: real)
    requires config.Valid() && InRange(config, b) && b.tokens < 1.0 && config.capacity >= 1
    requires later >= b.lastRefill + RetryAfter(config, b.tokens) as real
    ensures Admits(config, b, later)
  {
    RateIsPositive(config);
    var rate := config.Rate();
    var wait := (1.0 - b.tokens) / rate;
    hide Config.Rate;
    ScaledUp(rate, wait, later - b.lastRefill);
  }

  lemma ScaledUp(rate: real, a: real, b: real)
    requires rate >= 0.0 && a <= b
    ensures a * rate <= b * rate
  {
    assert (b - a) * rate == b * rate - a * rate;
  }

  /** Nor is it padded: it is at most a second, and half a nanosecond, past the true wait. */
  lemma RetryAfterIsTight(config: Config, tokens: real)
    requires config.Valid() && 0.0 <= tokens < 1.0 && config.capacity >= 1
    ensures config.Rate() > 0.0
    ensures RetryAfter(config, tokens) as real <= (1.0 - tokens) / config.Rate() + 1.0 + 0.0000000005
  {
    RateIsPositive(config);
    var wait := (1.0 - tokens) / config.Rate();
    var nanos := (wait * NANOS_PER_SECOND as real + 0.5).Floor;
    var q := nanos / NANOS_PER_SECOND;
    assert q * NANOS_PER_SECOND <= nanos;
    assert q as real * NANOS_PER_SECOND as real <= wait * NANOS_PER_SECOND as real + 0.5;
  }

  // ---------------------------------------------------------------- idle eviction

  /** After one idle refill period a bucket is full again, so it behaves as a new one would. */
  lemma IdleBucketsAreFull(config: Config, b: Bucket, now: real)
    requires config.Valid() && InRange(config, b) && now >= b.lastRefill + config.refillPeriod
    ensures Refilled(config, b, now) == Fresh(config, now) == Refilled(config, Fresh(config, now), now)
  {
    RateIsPositive(config);
    assert config.refillPeriod * config.Rate() == config.Capacity() by {
      assert (config.Capacity() / config.refillPeriod) * config.refillPeriod == config.Capacity();
    }
    ScaledUp(config.Rate(), config.refillPeriod, now - b.lastRefill);
    assert Elapsed(now, now) * config.Rate() == 0.0;
  }

  /** What happens to a limiter: a request, or moka dropping an idle bucket. */
  datatype Event = Request(key: string, at: real) | IdleEviction(key: string, at: real)

  ghost predicate InOrder(events: seq<Event>) {
    forall i, j :: 0 <= i <= j < |events| ==> events[i].at <= events[j].at
  }

  /** The limiter's map after some events, each request as `TryConsume` leaves it. */
  function Buckets(config: Config, events: seq<Event>): map<string, Bucket>
    requires config.Valid()
  {
    if events == [] then map[]
    else
      var before := Buckets(config, events[..|events| - 1]);
      match events[|events| - 1]
      case Request(key, at) => before[key := Consumed(config, BucketFor(config, before, key, at), at)]
      case IdleEviction(key, _) => before - {key}
  }

  function BucketFor(config: Config, buckets: map<string, Bucket>, key: string, now: real): Bucket {
    if key in buckets then buckets[key] else Fresh(config, now)
  }

  /** Evictions are idle ones: two refill periods without a request for that key. */
  ghost predicate EvictsOnlyIdle(config: Config, events: seq<Event>)
    requires config.Valid()
  {
    forall i :: 0 <= i < |events| && events[i].IdleEviction? ==>
      var before := Buckets(config, events[..i]);
      events[i].key in before ==> events[i].at >= before[events[i].key].lastRefill + 2.0 * config.refillPeriod
  }

  /** The answers one caller gets from the shared limiter, advertised waits included. */
  function AnswersTo(config: Config, events: seq<Event>, key: string): seq<Option<nat>>
    requires config.Valid()
  {
    if events == [] then []
    else
      var earlier, last := events[..|events| - 1], events[|events| - 1];
      var before := AnswersTo(config, earlier, key);
      if last.Request? && last.key == key then
        before + [Answer(config, BucketFor(config, Buckets(config, earlier), key, last.at), last.at)]
      else before
  }

  function RequestsOf(events: seq<Event>, key: string): seq<real> {
    if events == [] then []
    else
      var before, last := RequestsOf(events[..|events| - 1], key), events[|events| - 1];
      if last.Request? && last.key == key then before + [last.at] else before
  }

  /** A bucket kept for one caller alone, full when the caller first appears, never evicted. */
  function OwnBucket(config: Config, times: seq<real>): Bucket
    requires config.Valid() && times != []
  {
    Run(config, Fresh(config, times[0]), times)
  }

  /** What ties the shared map to a caller's own bucket. */
  ghost predicate Tracks(config: Config, events: seq<Event>, key: string)
    requires config.Valid()
  {
    var shared, times := Buckets(config, events), RequestsOf(events, key);
    if times == [] then key !in shared
    else
      && (key in shared ==> shared[key] == OwnBucket(config, times))
      && (key !in shared ==> OwnBucket(config, times).lastRefill + config.refillPeriod <= events[|events| - 1].at)
  }

  lemma EvictsOnlyIdlePrefix(config: Config, events: seq<Event>)
    requires config.Valid() && EvictsOnlyIdle(config, events) && events != []
    ensures EvictsOnlyIdle(config, events[..|events| - 1])
  {
    var earlier := events[..|events| - 1];
    forall i | 0 <= i < |earlier| ensures earlier[..i] == events[..i] && earlier[i] == events[i] {}
  }

  lemma {:induction false} RequestsInOrder(events: seq<Event>, key: string)
    requires InOrder(events)
    ensures Ascending(RequestsOf(events, key))
    ensures RequestsOf(events, key) != [] ==>
              events != [] && RequestsOf(events, key)[|RequestsOf(events, key)| - 1] <= events[|events| - 1].at
  {
    if events != [] {
      RequestsInOrder(events[..|events| - 1], key);
    }
  }

  lemma OwnBucketInRange(config: Config, times: seq<real>)
    requires config.Valid() && times != []
    ensures InRange(config, OwnBucket(config, times)) && OwnBucket(config, times).lastRefill == times[|times| - 1]
  {
    TokensStayInRange(config, Fresh(config, times[0]), times);
  }

  /** The next request meets the same tokens in the shared map as in the caller's own bucket. */
  lemma SameNextAnswer(config: Config, earlier: seq<Event>, key: string, now: real)
    requires config.Valid() && InOrder(earlier) && Tracks(config, earlier, key)
    requires earlier != [] ==> earlier[|earlier| - 1].at <= now
    ensures var times := RequestsOf(earlier, key);
      var own := if times == [] then Fresh(config, now) else OwnBucket(config, times);
      var met := BucketFor(config, Buckets(config, earlier), key, now);
      Refilled(config, met, now) == Refilled(config, own, now)
  {
    var times := RequestsOf(earlier, key);
    if times != [] && key !in Buckets(config, earlier) {
      OwnBucketInRange(config, times);
      RequestsInOrder(earlier, key);
      IdleBucketsAreFull(config, OwnBucket(config, times), now);
    }
  }

  lemma {:induction false} SharedTracksOwn(config: Config, events: seq<Event>, key: string)
    requires config.Valid() && InOrder(events) && EvictsOnlyIdle(config, events)
    ensures Tracks(config, events, key)
    decreases |events|
  {
    if events != [] {
      var earlier, last := events[..|events| - 1], events[|events| - 1];
      EvictsOnlyIdlePrefix(config, events);
      SharedTracksOwn(config, earlier, key);
      var times := RequestsOf(earlier, key);
      if last.Request? && last.key == key {
        SameNextAnswer(config, earlier, key, last.at);
        var now := times + [last.at];
        assert now[..|now| - 1] == times;
        if times == [] {
          assert Run(config, Fresh(config, last.at), []) == Fresh(config, last.at);
        }
      } else if times != [] {
        OwnBucketInRange(config, times);
        RequestsInOrder(earlier, key);
        if last.IdleEviction? && last.key == key && key in Buckets(config, earlier) {
          assert last.at >= Buckets(config, earlier)[key].lastRefill + 2.0 * config.refillPeriod;
        }
      }
    }
  }

  /**
  Sharing and idle eviction are invisible.  However the callers' requests interleave and whichever
  idle buckets are dropped, each caller is answered, down to the wait it is told, as by a bucket of
  its own that is never dropped.
  */
  lemma {:induction false} CallersAreIsolated(config: Config, events: seq<Event>, key: string)
    requires config.Valid() && InOrder(events) && EvictsOnlyIdle(config, events)
    ensures var times := RequestsOf(events, key);
      AnswersTo(config, events, key) == (if times == [] then [] else Answers(config, Fresh(config, times[0]), times))
    decreases |events|
  {
    if events != [] {
      var earlier, last := events[..|events| - 1], events[|events| - 1];
      EvictsOnlyIdlePrefix(config, events);
      CallersAreIsolated(config, earlier, key);
      if last.Request? && last.key == key {
        SharedTracksOwn(config, earlier, key);
        SameNextAnswer(config, earlier, key, last.at);
        var times := RequestsOf(earlier, key);
        var now := times + [last.at];
        assert now[..|now| - 1] == times;
      }
    }
  }
}
