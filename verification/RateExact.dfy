/** Exactly which requests a bucket admits: those that keep every window so far within its budget. */
module RateExact {
  import opened Options
  import opened RateLimit

  /** What the bucket holds for the request after these, the refill done and nothing taken yet. */
  function Held(config: Config, times: seq<real>, now: real): real
    requires config.Valid()
  {
    if times == [] then config.Capacity()
    else Refilled(config, OwnBucket(config, times), now).tokens
  }

  /** The requests from the `k`-th on that were answered without a wait. */
  function AdmittedFrom(answers: seq<Option<nat>>, k: nat): nat
    requires k <= |answers|
  {
    if |answers| == k then 0
    else AdmittedFrom(answers[..|answers| - 1], k) + (if answers[|answers| - 1].None? then 1 else 0)
  }

  /** The budget of the window that opens at the `k`-th request, less what it has admitted so far. */
  function Budget(config: Config, times: seq<real>, answers: seq<Option<nat>>, now: real, k: nat): real
    requires config.Valid() && k <= |times| == |answers|
  {
    config.Capacity() + Trickled(config, if k < |times| then times[k] else now, now) - AdmittedFrom(answers, k) as real
  }

  /** A caller's answers from a bucket of its own, full when the caller first appears. */
  function OwnAnswers(config: Config, times: seq<real>): seq<Option<nat>>
    requires config.Valid()
  {
    if times == [] then [] else Answers(config, Fresh(config, times[0]), times)
  }

  lemma {:induction false} AsManyAnswers(config: Config, b: Bucket, times: seq<real>)
    requires config.Valid()
    ensures |Answers(config, b, times)| == |times|
  {
    if times != [] {
      AsManyAnswers(config, b, times[..|times| - 1]);
    }
  }

  lemma OwnPrefix(config: Config, times: seq<real>)
    requires config.Valid() && times != []
    ensures var earlier, last := times[..|times| - 1], times[|times| - 1];
      && OwnAnswers(config, times)
         == OwnAnswers(config, earlier)
            + [Answer(config, if earlier == [] then Fresh(config, last) else OwnBucket(config, earlier), last)]
      && OwnBucket(config, times)
         == Consumed(config, if earlier == [] then Fresh(config, last) else OwnBucket(config, earlier), last)
      && |OwnAnswers(config, times)| == |times| && |OwnAnswers(config, earlier)| == |earlier|
  {
    var earlier, last := times[..|times| - 1], times[|times| - 1];
    AsManyAnswers(config, Fresh(config, times[0]), times);
    AsManyAnswers(config, Fresh(config, times[0]), earlier);
    if earlier == [] {
      assert times[0] == last;
    } else {
      assert earlier[0] == times[0];
    }
  }

  /** A fresh bucket refills to itself at once. */
  lemma FreshIsFull(config: Config, now: real)
    requires config.Valid()
    ensures Refilled(config, Fresh(config, now), now) == Fresh(config, now)
  {
    RateIsPositive(config);
    hide Config.Rate;
    assert Elapsed(now, now) * config.Rate() == 0.0;
  }

  lemma NextFinds(config: Config, b: Bucket, last: real, now: real)
    requires config.Valid() && last <= now
    ensures var held := Refilled(config, b, last).tokens;
      && (Answer(config, b, last).None? <==> held >= 1.0)
      && Refilled(config, Consumed(config, b, last), now).tokens
         == Min(held - (if held >= 1.0 then 1.0 else 0.0) + Trickled(config, last, now), config.Capacity())
  {
    hide Config.Rate, RetryAfter;
    var after := Consumed(config, b, last);
    assert after.lastRefill == last;
    assert Elapsed(last, now) * config.Rate() == Trickled(config, last, now);
  }

  /** What the next request finds, from what the last one found. */
  lemma HeldStep(config: Config, times: seq<real>, now: real)
    requires config.Valid() && times != [] && times[|times| - 1] <= now
    ensures |OwnAnswers(config, times)| == |times|
    ensures var earlier, last := times[..|times| - 1], times[|times| - 1];
      var held, admitted := Held(config, earlier, last), OwnAnswers(config, times)[|times| - 1].None?;
      && (admitted <==> held >= 1.0)
      && Held(config, times, now)
         == Min(held - (if admitted then 1.0 else 0.0) + Trickled(config, last, now), config.Capacity())
  {
    var earlier, last := times[..|times| - 1], times[|times| - 1];
    OwnPrefix(config, times);
    FreshIsFull(config, last);
    var b := if earlier == [] then Fresh(config, last) else OwnBucket(config, earlier);
    hide Config.Rate, OwnBucket, RetryAfter, Trickled, Answer, Consumed, Refilled;
    NextFinds(config, b, last, now);
    assert Held(config, earlier, last) == Refilled(config, b, last).tokens;
  }

  lemma AdmittedOneMore(config: Config, times: seq<real>, k: nat)
    requires config.Valid() && k < |times|
    ensures |OwnAnswers(config, times)| == |times| && |OwnAnswers(config, times[..|times| - 1])| == |times| - 1
    ensures AdmittedFrom(OwnAnswers(config, times), k)
            == AdmittedFrom(OwnAnswers(config, times[..|times| - 1]), k)
               + (if OwnAnswers(config, times)[|times| - 1].None? then 1 else 0)
  {
    OwnPrefix(config, times);
  }

  /** Every window's budget changes by what the last request took and what trickled in after it. */
  lemma BudgetOneMore(config: Config, times: seq<real>, now: real, i: nat)
    requires config.Valid() && i < |times|
    ensures |OwnAnswers(config, times)| == |times| && |OwnAnswers(config, times[..|times| - 1])| == |times| - 1
    ensures var n := |times| - 1;
      var answers := OwnAnswers(config, times);
      Budget(config, times, answers, now, i)
      == Budget(config, times[..n], OwnAnswers(config, times[..n]), times[n], i)
         - (if answers[n].None? then 1.0 else 0.0) + Trickled(config, times[n], now)
  {
    var n := |times| - 1;
    AdmittedOneMore(config, times, i);
    hide Config.Rate, OwnAnswers, AdmittedFrom, Trickled;
    TrickleAdds(config, times[i], times[n], now);
  }

  lemma BudgetOfNow(config: Config, times: seq<real>, answers: seq<Option<nat>>, now: real)
    requires config.Valid() && |answers| == |times|
    ensures Budget(config, times, answers, now, |times|) == config.Capacity()
  {
    assert config.Rate() * (now - now) == 0.0;
  }

  /**
  What a request finds is the tightest of the windows' budgets: no window has less, and some window
  has just that much.
  */
  lemma {:induction false} HeldIsTheTightest(config: Config, times: seq<real>, now: real) returns (k: nat)
    requires config.Valid() && Ascending(times + [now])
    ensures |OwnAnswers(config, times)| == |times| && k <= |times|
    ensures Held(config, times, now) == Budget(config, times, OwnAnswers(config, times), now, k)
    ensures forall i :: 0 <= i <= |times| ==>
              Held(config, times, now) <= Budget(config, times, OwnAnswers(config, times), now, i)
  {
    if times == [] {
      k := 0;
      BudgetOfNow(config, [], [], now);
    } else {
      var n := |times| - 1;
      var earlier, last := times[..n], times[n];
      assert (times + [now])[n] == last && (times + [now])[n + 1] == now;
      assert Ascending(earlier + [last]) by {
        assert forall i :: 0 <= i <= n ==> (earlier + [last])[i] == (times + [now])[i];
      }
      hide Config.Rate, OwnAnswers, Held, Budget, Trickled, Ascending;
      var before := HeldIsTheTightest(config, earlier, last);
      HeldStep(config, times, now);
      var answers := OwnAnswers(config, times);
      BudgetOfNow(config, times, answers, now);
      forall i | 0 <= i <= n
        ensures Budget(config, times, answers, now, i)
                == Budget(config, earlier, OwnAnswers(config, earlier), last, i)
                   - (if answers[n].None? then 1.0 else 0.0) + Trickled(config, last, now)
      {
        BudgetOneMore(config, times, now, i);
      }
      k := if Held(config, times, now) == config.Capacity() then n + 1 else before;
    }
  }

  /**
  The bucket is exactly as strict as its promise.  A request is admitted if and only if every window
  that opened at an earlier request of the caller, or opens at this one, can afford it: what it has
  admitted, and this one, are within the capacity and what has trickled in since it opened.
  */
  lemma AdmittedWhenAffordable(config: Config, times: seq<real>, now: real)
    requires config.Valid() && Ascending(times + [now])
    ensures |OwnAnswers(config, times)| == |times| && |OwnAnswers(config, times + [now])| == |times| + 1
    ensures OwnAnswers(config, times + [now])[|times|].None?
            <==> forall k :: 0 <= k <= |times| ==> Budget(config, times, OwnAnswers(config, times), now, k) >= 1.0
  {
    var k := HeldIsTheTightest(config, times, now);
    assert (times + [now])[..|times|] == times;
    HeldStep(config, times + [now], now);
    hide Budget, OwnAnswers, Held;
  }

  lemma {:induction false} AtMostOneEach(answers: seq<Option<nat>>, k: nat)
    requires k <= |answers|
    ensures AdmittedFrom(answers, k) <= |answers| - k
  {
    if k < |answers| {
      AtMostOneEach(answers[..|answers| - 1], k);
    }
  }

  /** So the first requests, up to the capacity, are all admitted, however close together they come. */
  lemma BurstIsAdmitted(config: Config, times: seq<real>, now: real)
    requires config.Valid() && Ascending(times + [now]) && |times| < config.capacity
    ensures |OwnAnswers(config, times + [now])| == |times| + 1
    ensures OwnAnswers(config, times + [now])[|times|].None?
  {
    AdmittedWhenAffordable(config, times, now);
    forall k | 0 <= k <= |times| ensures Budget(config, times, OwnAnswers(config, times), now, k) >= 1.0 {
      AtMostOneEach(OwnAnswers(config, times), k);
      var from := if k < |times| then times[k] else now;
      assert from <= now by { assert (times + [now])[k] == from && (times + [now])[|times|] == now; }
      TrickleIsNotNegative(config, from, now);
    }
  }

  // ---------------------------------------------------------------- rate and wait

  /** The rate is the capacity once a period. */
  lemma APeriodTricklesTheCapacity(config: Config, now: real)
    requires config.Valid()
    ensures Trickled(config, now, now + config.refillPeriod) == config.Capacity()
  {
    var period := config.refillPeriod;
    assert config.Rate() * period == config.Capacity() by {
      assert (config.Capacity() / period) * period == config.Capacity();
    }
  }

  /** The advertised second is the first past the wait, taken to the nearest nanosecond. */
  lemma RetryAfterIsTheNextSecond(config: Config, tokens: real) returns (nanos: int)
    requires config.Valid() && 0.0 <= tokens < 1.0 && config.capacity >= 1
    ensures config.Rate() > 0.0
    ensures -0.5 <= nanos as real - (1.0 - tokens) / config.Rate() * 1_000_000_000.0 <= 0.5
    ensures var seconds := RetryAfter(config, tokens);
      (seconds - 1) * 1_000_000_000 <= nanos < seconds * 1_000_000_000
  {
    RateIsPositive(config);
    var wait := (1.0 - tokens) / config.Rate();
    nanos := (wait * NANOS_PER_SECOND as real + 0.5).Floor;
    assert RetryAfter(config, tokens) == nanos / NANOS_PER_SECOND + 1;
    hide RetryAfter, Config.Rate;
  }

  /** A bucket that can hold nothing advertises a second more than a day. */
  lemma NothingToWaitFor(config: Config, tokens: real)
    requires config.Valid() && tokens < 1.0 && config.capacity == 0
    ensures RetryAfter(config, tokens) == 24 * 60 * 60 + 1
  {
    RateIsPositive(config);
  }

  /** A clock that went back refills nothing. */
  lemma NothingRefillsBackwards(config: Config, b: Bucket, now: real)
    requires config.Valid() && InRange(config, b) && now <= b.lastRefill
    ensures Refilled(config, b, now).tokens == b.tokens
  {
    hide Config.Rate;
    assert Elapsed(b.lastRefill, now) * config.Rate() == 0.0;
  }
}
