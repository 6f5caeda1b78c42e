/**
  The token bucket, over real time and real tokens.  Its laws hold for any supply that never runs
  backwards; the limiter's supply makes `rate` tokens a second.
 */
module RateLimiter {
  import opened Options

  /** How many tokens have been produced by a time, and how many can be kept. */
  datatype Supply = Supply(capacity: real, produced: real -> real)

  datatype Bucket = Bucket(tokens: real, updated: real)

  function Max(a: real, b: real): real { if a > b then a else b }

  function Min(a: real, b: real): real { if a < b then a else b }

  ghost predicate Legal(s: Supply) {
    s.capacity > 0.0 && forall t, u :: t <= u ==> s.produced(t) <= s.produced(u)
  }

  function Refilled(s: Supply, b: Bucket, time: real): Bucket {
    if time > b.updated then Bucket(Min(s.capacity, b.tokens + (s.produced(time) - s.produced(b.updated))), time) else b
  }

  /** A request at one instant: refill, then take the tokens if they are there. */
  datatype Request = Request(time: real, tokens: real)

  predicate Grants(s: Supply, b: Bucket, request: Request) {
    Refilled(s, b, request.time).tokens >= request.tokens
  }

  function Served(s: Supply, b: Bucket, request: Request): Bucket {
    var full := Refilled(s, b, request.time);
    if full.tokens >= request.tokens then full.(tokens := full.tokens - request.tokens) else full
  }

  predicate Within(s: Supply, b: Bucket) {
    0.0 <= b.tokens <= s.capacity
  }

  // ---------------------------------------------------------------- any run of requests

  /** A request leaves the bucket within its bounds exactly when it is not so negative as to overfill it. */
  lemma StaysWithinExactlyWhen(s: Supply, b: Bucket, request: Request)
    requires Legal(s) && Within(s, b)
    ensures Within(s, Served(s, b, request)) <==> request.tokens >= Refilled(s, b, request.time).tokens - s.capacity
  {
    assert request.time > b.updated ==> s.produced(b.updated) <= s.produced(request.time);
  }

  /** A request keeps every bucket within its bounds exactly when it does not ask for less than nothing. */
  lemma KeepsEveryBucketExactlyWhen(s: Supply, request: Request)
    requires Legal(s)
    ensures (forall b :: Within(s, b) ==> Within(s, Served(s, b, request))) <==> request.tokens >= 0.0
  {
    if request.tokens >= 0.0 {
      forall b | Within(s, b)
        ensures Within(s, Served(s, b, request))
      {
        StaysWithinExactlyWhen(s, b, request);
      }
    } else {
      var full := Bucket(s.capacity, request.time);
      assert Within(s, full) && !Within(s, Served(s, full, request));
    }
  }

  /** A full bucket asked for minus one token holds one more than its capacity. */
  lemma NegativeRequestOverfills(s: Supply, time: real)
    requires Legal(s)
    ensures Served(s, Bucket(s.capacity, time), Request(time, -1.0)).tokens == s.capacity + 1.0
  {
  }

  function ServedAll(s: Supply, b: Bucket, rs: seq<Request>): Bucket {
    if rs == [] then b else Served(s, ServedAll(s, b, rs[..|rs| - 1]), rs[|rs| - 1])
  }

  /** What the last request was given. */
  function Given(s: Supply, b: Bucket, rs: seq<Request>): real
    requires rs != []
  {
    if Grants(s, ServedAll(s, b, rs[..|rs| - 1]), rs[|rs| - 1]) then rs[|rs| - 1].tokens else 0.0
  }

  /** The tokens given to the requests from the `i`-th on. */
  function Total(s: Supply, b: Bucket, rs: seq<Request>, i: nat): real {
    if i >= |rs| then 0.0 else Total(s, b, rs[..|rs| - 1], i) + Given(s, b, rs)
  }

  function LastTime(b: Bucket, rs: seq<Request>): real {
    if rs == [] then b.updated else rs[|rs| - 1].time
  }

  /** The clock does not go back and nobody asks for less than nothing. */
  predicate Fair(b: Bucket, rs: seq<Request>) {
    rs == []
    || var init, last := rs[..|rs| - 1], rs[|rs| - 1];
      Fair(b, init) && last.time >= LastTime(b, init) && last.tokens >= 0.0
  }

  lemma {:induction false} FairRunsStayWithin(s: Supply, b: Bucket, rs: seq<Request>)
    requires Legal(s) && Within(s, b) && Fair(b, rs)
    ensures Within(s, ServedAll(s, b, rs)) && ServedAll(s, b, rs).updated == LastTime(b, rs)
  {
    if rs != [] {
      FairRunsStayWithin(s, b, rs[..|rs| - 1]);
      StaysWithinExactlyWhen(s, ServedAll(s, b, rs[..|rs| - 1]), rs[|rs| - 1]);
    }
  }

  /**
    How much the bound leaves at `time` for the window that starts with request `i`, or, past the last
    request, for the window that starts now.
   */
  function Slack(s: Supply, b: Bucket, rs: seq<Request>, i: nat, time: real): real {
    if i >= |rs| then s.capacity
    else s.capacity + (s.produced(time) - s.produced(rs[i].time)) - Total(s, b, rs, i)
  }

  /** The same for the window that starts with the bucket as it was. */
  function StartSlack(s: Supply, b: Bucket, rs: seq<Request>, time: real): real {
    b.tokens + (s.produced(time) - s.produced(b.updated)) - Total(s, b, rs, 0)
  }

  function Available(s: Supply, b: Bucket, rs: seq<Request>, time: real): real {
    Refilled(s, ServedAll(s, b, rs), time).tokens
  }

  lemma AvailableAfterOne(s: Supply, b: Bucket, rs: seq<Request>, time: real)
    requires Legal(s) && Within(s, b) && Fair(b, rs) && rs != [] && time >= LastTime(b, rs)
    ensures var last := rs[|rs| - 1];
            Available(s, b, rs, time) ==
            Min(s.capacity, Available(s, b, rs[..|rs| - 1], last.time) - Given(s, b, rs)
                            + (s.produced(time) - s.produced(last.time)))
  {
    FairRunsStayWithin(s, b, rs[..|rs| - 1]);
    FairRunsStayWithin(s, b, rs);
  }

  lemma SlackAfterOne(s: Supply, b: Bucket, rs: seq<Request>, i: nat, time: real)
    requires rs != [] && i < |rs|
    ensures var last := rs[|rs| - 1];
            Slack(s, b, rs, i, time) ==
            Slack(s, b, rs[..|rs| - 1], i, last.time) - Given(s, b, rs) + (s.produced(time) - s.produced(last.time))
  {
    var init := rs[..|rs| - 1];
    assert Total(s, b, rs, i) == Total(s, b, init, i) + Given(s, b, rs);
    if i < |init| {
      assert init[i] == rs[i];
    } else {
      assert Total(s, b, init, i) == 0.0;
    }
  }

  /** No window leaves less than what is in the bucket. */
  lemma {:induction false} AvailableAtMost(s: Supply, b: Bucket, rs: seq<Request>, i: nat, time: real)
    requires Legal(s) && Within(s, b) && Fair(b, rs) && time >= LastTime(b, rs)
    ensures Available(s, b, rs, time) <= Slack(s, b, rs, i, time)
    ensures Available(s, b, rs, time) <= StartSlack(s, b, rs, time)
  {
    if rs != [] {
      var init, last := rs[..|rs| - 1], rs[|rs| - 1];
      AvailableAtMost(s, b, init, i, last.time);
      AvailableAfterOne(s, b, rs, time);
      if i < |rs| {
        SlackAfterOne(s, b, rs, i, time);
      }
    }
  }

  /** And some window leaves exactly that. */
  lemma {:induction false} AvailableIsSomeSlack(s: Supply, b: Bucket, rs: seq<Request>, time: real) returns (i: Option<nat>)
    requires Legal(s) && Within(s, b) && Fair(b, rs) && time >= LastTime(b, rs)
    ensures i.Some? ==> i.value <= |rs| && Available(s, b, rs, time) == Slack(s, b, rs, i.value, time)
    ensures i.None? ==> Available(s, b, rs, time) == StartSlack(s, b, rs, time)
  {
    if Available(s, b, rs, time) == s.capacity {
      i := Some(|rs|);
    } else if rs == [] {
      i := None;
    } else {
      i := AvailableIsSomeSlack(s, b, rs[..|rs| - 1], rs[|rs| - 1].time);
      AvailableAfterOne(s, b, rs, time);
      if i.Some? {
        SlackAfterOne(s, b, rs, i.value, time);
      }
    }
  }

  /** What a run gives between any two of its instants is at most the capacity and what is produced between them. */
  lemma WindowsAreBounded(s: Supply, b: Bucket, rs: seq<Request>, i: nat, made: real)
    requires Legal(s) && Within(s, b) && Fair(b, rs) && i < |rs|
    requires s.produced(LastTime(b, rs)) - s.produced(rs[i].time) == made
    ensures Total(s, b, rs, i) <= s.capacity + made
  {
    FairRunsStayWithin(s, b, rs);
    AvailableAtMost(s, b, rs, i, LastTime(b, rs));
  }

  /**
    The limiter refuses no more than the bound demands: a request is granted exactly when no window that
    ends with it would then give more than its bound.
   */
  lemma GrantsExactlyWhenBoundAllows(s: Supply, b: Bucket, rs: seq<Request>, request: Request)
    requires Legal(s) && Within(s, b) && Fair(b, rs) && request.time >= LastTime(b, rs)
    ensures Grants(s, ServedAll(s, b, rs), request) <==>
            && request.tokens <= StartSlack(s, b, rs, request.time)
            && forall i: nat :: i <= |rs| ==> request.tokens <= Slack(s, b, rs, i, request.time)
  {
    forall i: nat | i <= |rs|
      ensures Available(s, b, rs, request.time) <= Slack(s, b, rs, i, request.time)
    {
      AvailableAtMost(s, b, rs, i, request.time);
    }
    AvailableAtMost(s, b, rs, 0, request.time);
    var i := AvailableIsSomeSlack(s, b, rs, request.time);
  }

  lemma RefillTwice(s: Supply, b: Bucket, first: real, second: real)
    requires Legal(s) && first <= second
    ensures Refilled(s, Refilled(s, b, first), second) == Refilled(s, b, second)
  {
    assert s.produced(first) <= s.produced(second);
  }

  // ---------------------------------------------------------------- the limiter

  datatype Limits = Limits(rate: real, capacity: real)

  /** The limits a limiter is made with; a rate or a burst that is not positive is refused. */
  function LimitsFor(rate: real, burst: Option<real>): Option<Limits> {
    var capacity := if burst.Some? then burst.value else Max(1.0, rate);
    if rate <= 0.0 || capacity <= 0.0 then None else Some(Limits(rate, capacity))
  }

  function SupplyOf(limits: Limits): Supply {
    Supply(limits.capacity, (t: real) => t * limits.rate)
  }

  lemma Difference(rate: real, t: real, u: real)
    ensures (u - t) * rate == u * rate - t * rate
    ensures rate > 0.0 && t <= u ==> t * rate <= u * rate
  {
    assert rate > 0.0 && t <= u ==> (u - t) * rate >= 0.0;
  }

  lemma ProducedBetween(limits: Limits, t: real, u: real, elapsed: real)
    requires elapsed == u - t
    ensures SupplyOf(limits).produced(u) - SupplyOf(limits).produced(t) == elapsed * limits.rate
  {
    Difference(limits.rate, t, u);
  }

  predicate Positive(limits: Limits) {
    limits.rate > 0.0 && limits.capacity > 0.0
  }

  lemma LimitsArePositive(rate: real, burst: Option<real>)
    ensures LimitsFor(rate, burst).Some? <==> rate > 0.0 && (burst.Some? ==> burst.value > 0.0)
    ensures LimitsFor(rate, burst).Some? ==> Positive(LimitsFor(rate, burst).value)
    ensures LimitsFor(rate, burst).Some? ==>
              var limits := LimitsFor(rate, burst).value;
              && limits.rate == rate && (burst.Some? ==> limits.capacity == burst.value)
              && (burst.None? ==> limits.capacity >= rate && limits.capacity >= 1.0 && limits.capacity in {1.0, rate})
  {
  }

  lemma SupplyIsLegal(limits: Limits)
    requires Positive(limits)
    ensures Legal(SupplyOf(limits))
  {
    var s := SupplyOf(limits);
    forall t, u | t <= u
      ensures s.produced(t) <= s.produced(u)
    {
      Difference(limits.rate, t, u);
    }
  }

  lemma GivesAtMostProduced(limits: Limits, b: Bucket, rs: seq<Request>, i: nat, made: real)
    requires Positive(limits) && Within(SupplyOf(limits), b) && Fair(b, rs) && i < |rs|
    requires SupplyOf(limits).produced(LastTime(b, rs)) - SupplyOf(limits).produced(rs[i].time) == made
    ensures Total(SupplyOf(limits), b, rs, i) <= limits.capacity + made
  {
    SupplyIsLegal(limits);
    WindowsAreBounded(SupplyOf(limits), b, rs, i, made);
  }

  /** The documented bound: between two instants at most `capacity + elapsed * rate` tokens are given. */
  lemma GivesAtMostCapacityAndRate(limits: Limits, b: Bucket, rs: seq<Request>, i: nat, elapsed: real)
    requires Positive(limits) && Within(SupplyOf(limits), b) && Fair(b, rs)
    requires i < |rs| && elapsed == LastTime(b, rs) - rs[i].time
    ensures Total(SupplyOf(limits), b, rs, i) <= limits.capacity + elapsed * limits.rate
  {
    ProducedBetween(limits, rs[i].time, LastTime(b, rs), elapsed);
    GivesAtMostProduced(limits, b, rs, i, elapsed * limits.rate);
  }

  lemma RefillFurther(limits: Limits, b: Bucket, first: real, second: real)
    requires Positive(limits) && first <= second
    ensures Refilled(SupplyOf(limits), Refilled(SupplyOf(limits), b, first), second) == Refilled(SupplyOf(limits), b, second)
  {
    SupplyIsLegal(limits);
    RefillTwice(SupplyOf(limits), b, first, second);
  }

  /** When somebody waiting for the tokens would have them, if nobody else takes any. */
  function ReadyAt(limits: Limits, b: Bucket, wanted: real, time: real): real
    requires limits.rate > 0.0
  {
    time + (wanted - Refilled(SupplyOf(limits), b, time).tokens) / limits.rate
  }

  lemma EnoughTime(rate: real, missing: real, elapsed: real)
    requires rate > 0.0
    ensures elapsed >= missing / rate <==> elapsed * rate >= missing
  {
    assert (missing / rate) * rate == missing;
    Difference(rate, missing / rate, elapsed);
    if elapsed < missing / rate {
      assert (missing / rate - elapsed) * rate > 0.0;
      Difference(rate, elapsed, missing / rate);
    }
  }

  /** The computed wait is enough and no more: the tokens are there exactly from then on. */
  lemma WaitIsEnough(limits: Limits, b: Bucket, wanted: real, time: real, wake: real)
    requires Positive(limits) && wanted <= limits.capacity && b.updated <= time <= wake
    ensures wake >= ReadyAt(limits, b, wanted, time) ==> Grants(SupplyOf(limits), b, Request(wake, wanted))
    ensures wake < ReadyAt(limits, b, wanted, time) ==> !Grants(SupplyOf(limits), b, Request(wake, wanted))
  {
    var s := SupplyOf(limits);
    var full := Refilled(s, b, time);
    RefillFurther(limits, b, time, wake);
    ProducedBetween(limits, time, wake, wake - time);
    EnoughTime(limits.rate, wanted - full.tokens, wake - time);
    if wake > time {
      RefillIs(limits, full, wake, wake - time);
    }
  }

  /** The refill: `rate` tokens for each second gone by, never past the capacity; no change when the clock went back. */
  lemma RefillIs(limits: Limits, b: Bucket, time: real, elapsed: real)
    requires elapsed == time - b.updated
    ensures Refilled(SupplyOf(limits), b, time) ==
              if elapsed <= 0.0 then b
              else if b.tokens + elapsed * limits.rate < limits.capacity then Bucket(b.tokens + elapsed * limits.rate, time)
              else Bucket(limits.capacity, time)
  {
    ProducedBetween(limits, b.updated, time, elapsed);
  }

  /** A request is granted exactly when the refilled bucket has its tokens, which it then takes; refused, it takes none. */
  lemma ServiceIs(limits: Limits, b: Bucket, wanted: real, time: real, elapsed: real)
    requires elapsed == time - b.updated && elapsed > 0.0
    ensures var there := if b.tokens + elapsed * limits.rate < limits.capacity then b.tokens + elapsed * limits.rate else limits.capacity;
            && (Grants(SupplyOf(limits), b, Request(time, wanted)) <==> wanted <= there)
            && Served(SupplyOf(limits), b, Request(time, wanted)) == Bucket(if wanted <= there then there - wanted else there, time)
  {
    RefillIs(limits, b, time, elapsed);
  }

  datatype Verdict = Granted | TimedOut | TooMany | StillWaiting

  const TICK := 0.000001

  class RateLimiter {
    const limits: Limits
    var tokens: real
    var updated: real

    function State(): Bucket
      reads this
    {
      Bucket(tokens, updated)
    }

    constructor (rate: real, burst: Option<real>, time: real)
      requires LimitsFor(rate, burst).Some?
      ensures Some(limits) == LimitsFor(rate, burst) && Positive(limits)
      ensures State() == Bucket(limits.capacity, time) && Within(SupplyOf(limits), State())
    {
      LimitsArePositive(rate, burst);
      limits := LimitsFor(rate, burst).value;
      tokens, updated := LimitsFor(rate, burst).value.capacity, time;
    }

    method Refill(time: real)
      modifies this`tokens, this`updated
      ensures State() == Refilled(SupplyOf(limits), old(State()), time)
    {
      var elapsed := time - updated;
      if elapsed > 0.0 {
        Difference(limits.rate, updated, time);
        tokens := Min(limits.capacity, tokens + elapsed * limits.rate);
        updated := time;
      }
    }

    method TryAcquire(wanted: real, time: real) returns (granted: bool)
      modifies this`tokens, this`updated
      ensures State() == Served(SupplyOf(limits), old(State()), Request(time, wanted))
      ensures granted == Grants(SupplyOf(limits), old(State()), Request(time, wanted))
    {
      Refill(time);
      if tokens >= wanted {
        tokens := tokens - wanted;
        return true;
      }
      granted := false;
    }

    /**
      Takes the tokens, sleeping while they are missing.  Nobody else uses the limiter meanwhile.  The
      timeout runs from `called`, the first refill is at `start`, the deadline is compared `lag` after
      each refill, and a sleeper wakes up `late` after its wait.
     */
    method Acquire(wanted: real, timeout: Option<real>, called: real, start: real, lag: nat -> real, late: nat -> real)
      returns (verdict: Verdict, wakeups: nat)
      requires Positive(limits) && updated <= start
      requires forall k :: lag(k) >= 0.0 && late(k) >= 0.0
      modifies this`tokens, this`updated
      ensures !verdict.StillWaiting? && (verdict.TooMany? <==> wanted > limits.capacity)
      ensures verdict.TooMany? ==> State() == old(State())
      ensures wakeups <= 1
      ensures wakeups == 1 ==> || updated <= ReadyAt(limits, old(State()), wanted, start) + lag(0) + late(0)
                               || updated <= start + 0.000001 + lag(0) + late(0)
      ensures wakeups == 0 && verdict.Granted? <==>
              !verdict.TooMany? && Grants(SupplyOf(limits), old(State()), Request(start, wanted))
      ensures timeout.None? ==> !verdict.TimedOut?
      ensures timeout.Some? && lag(0) + ReadyAt(limits, old(State()), wanted, start) <= called + timeout.value ==> !verdict.TimedOut?
      ensures verdict.Granted? ==> Grants(SupplyOf(limits), old(State()), Request(updated, wanted))
      ensures verdict.Granted? ==> State() == Served(SupplyOf(limits), old(State()), Request(updated, wanted))
      ensures verdict.TimedOut? ==> State() == Refilled(SupplyOf(limits), old(State()), updated) && tokens < wanted
      ensures verdict.TimedOut? ==> updated + lag(wakeups) >= called + timeout.value
    {
      if wanted > limits.capacity {
        return TooMany, 0;
      }
      ghost var was := State();
      ghost var ready := ReadyAt(limits, was, wanted, start);
      var time := start;
      wakeups := 0;
      while true
        invariant was.updated <= updated <= time && start <= time && wakeups <= 1
        invariant State() == Refilled(SupplyOf(limits), was, updated)
        invariant wakeups == 0 ==> time == start && State() == was
        invariant wakeups == 1 ==> !Grants(SupplyOf(limits), was, Request(start, wanted))
        invariant wakeups == 1 ==> time <= ready + lag(0) + late(0) || time <= start + TICK + lag(0) + late(0)
        invariant wakeups == 1 ==> time >= ready || (timeout.Some? && time >= called + timeout.value)
        invariant wakeups == 1 && timeout.Some? && lag(0) + ready <= called + timeout.value ==> time >= ready
        decreases 2 - wakeups
      {
        RefillFurther(limits, was, updated, time);
        Refill(time);
        if tokens >= wanted {
          tokens := tokens - wanted;
          return Granted, wakeups;
        }
        if wakeups == 1 && time >= ready {
          WaitIsEnough(limits, was, wanted, start, time);
        }
        var wait := (wanted - tokens) / limits.rate;
        if timeout.Some? {
          var remaining := called + timeout.value - (time + lag(wakeups));
          if remaining <= 0.0 {
            return TimedOut, wakeups;
          }
          wait := Min(wait, remaining);
        }
        time := time + lag(wakeups) + Max(wait, TICK) + late(wakeups);
        wakeups := wakeups + 1;
      }
    }

    /**
      The same among others, who make the requests `others(k)` while the waiter sleeps after its k-th pass.
      A waiter may be passed over for as long as others are quicker, so the first `patience` passes are
      followed; each pass is one request, and `run` lists all requests in their order.
     */
    method AcquireAmong(wanted: real, timeout: Option<real>, called: real, start: real, lag: nat -> real, late: nat -> real,
                        others: nat -> seq<Request>, patience: nat)
      returns (verdict: Verdict, passes: nat, ghost run: seq<Request>)
      requires Positive(limits)
      modifies this`tokens, this`updated
      ensures State() == ServedAll(SupplyOf(limits), old(State()), run)
      ensures verdict.TooMany? <==> wanted > limits.capacity
      ensures verdict.TooMany? ==> run == []
      ensures passes <= patience && (verdict.StillWaiting? ==> passes == patience)
      ensures verdict.TimedOut? ==> timeout.Some?
      ensures verdict.Granted? || verdict.TimedOut? ==>
                run != [] && run[|run| - 1].tokens == wanted
                && (verdict.Granted? <==> Grants(SupplyOf(limits), ServedAll(SupplyOf(limits), old(State()), run[..|run| - 1]), run[|run| - 1]))
      ensures forall i :: 0 <= i < |run| ==> OwnOrOthers(run[i], wanted, others, passes)
    {
      run, passes := [], 0;
      if wanted > limits.capacity {
        return TooMany, 0, [];
      }
      var time := start;
      while passes < patience
        invariant State() == ServedAll(SupplyOf(limits), old(State()), run)
        invariant passes <= patience
        invariant forall i :: 0 <= i < |run| ==> OwnOrOthers(run[i], wanted, others, passes)
      {
        var granted := TryAcquire(wanted, time);
        ghost var before := run;
        run := run + [Request(time, wanted)];
        assert run[..|before|] == before;
        passes := passes + 1;
        if granted {
          return Granted, passes, run;
        }
        var wait := (wanted - tokens) / limits.rate;
        if timeout.Some? {
          var remaining := called + timeout.value - (time + lag(passes - 1));
          if remaining <= 0.0 {
            return TimedOut, passes, run;
          }
          wait := Min(wait, remaining);
        }
        time := time + lag(passes - 1) + Max(wait, TICK) + late(passes - 1);
        ghost var mine := run;
        var requests := others(passes - 1);
        for j := 0 to |requests|
          invariant State() == ServedAll(SupplyOf(limits), old(State()), run)
          invariant run == mine + requests[..j]
        {
          var _ := TryAcquire(requests[j].tokens, requests[j].time);
          assert requests[..j + 1] == requests[..j] + [requests[j]];
          assert (mine + requests[..j + 1])[..|mine| + j] == mine + requests[..j];
          run := mine + requests[..j + 1];
        }
      }
      verdict := StillWaiting;
    }
  }

  /** A pass of the waiter, or a request that another made after one of its passes. */
  ghost predicate OwnOrOthers(request: Request, wanted: real, others: nat -> seq<Request>, passes: nat) {
    request.tokens == wanted || exists k :: 0 <= k < passes && request in others(k)
  }
}
