/** The traffic shaper: a token bucket refilled by elapsed milliseconds. */
module TokenBucket {
  import opened Arith
  import opened Machine

  datatype Bucket = Bucket(capacity: nat, tokens: nat, lastFill: int)

  /** Tokens for a number of milliseconds; whole tokens a millisecond. */
  function Earned(capacity: nat, elapsed: int): int {
    elapsed * (capacity / 1000)
  }

  /** The refill at the start of `acquire`; sums and products wrap at 64 bits. */
  function Refill(b: Bucket, now: int): Bucket {
    var earned := Earned(b.capacity, now - b.lastFill) % UINT64_WRAP;
    Bucket(b.capacity, Min(b.capacity, (b.tokens + earned) % UINT64_WRAP), now)
  }

  function Grants(b: Bucket, now: int, bytes: nat): bool {
    Refill(b, now).tokens >= bytes
  }

  function Acquire(b: Bucket, now: int, bytes: nat): Bucket {
    var full := Refill(b, now);
    if full.tokens >= bytes then full.(tokens := full.tokens - bytes) else full
  }

  class TrafficShaper {
    const capacity: nat
    var tokens: nat
    var lastFill: int

    function Value(): Bucket
      reads this
    {
      Bucket(capacity, tokens, lastFill)
    }

    constructor (rate: nat, now: int)
      ensures Value() == Bucket(rate, rate, now)
    {
      capacity, tokens, lastFill := rate, rate, now;
    }

    /** `acquire`, with the clock read as `now`. */
    method TryAcquire(now: int, bytes: nat) returns (ok: bool)
      modifies this
      ensures ok == Grants(old(Value()), now, bytes) && Value() == Acquire(old(Value()), now, bytes)
    {
      var elapsed := now - lastFill;
      var newTokens := elapsed * (capacity / 1000) % UINT64_WRAP;
      tokens := Min(capacity, (tokens + newTokens) % UINT64_WRAP);
      lastFill := now;
      if tokens >= bytes {
        tokens := tokens - bytes;
        return true;
      }
      return false;
    }
  }

  // ---------------------------------------------------------------------------
  // Runs
  // ---------------------------------------------------------------------------

  datatype Request = Request(now: int, bytes: nat)

  function Run(b: Bucket, requests: seq<Request>): Bucket {
    if requests == [] then b
    else
      var r := requests[|requests| - 1];
      Acquire(Run(b, requests[..|requests| - 1]), r.now, r.bytes)
  }

  /** The bytes granted in a run. */
  function Granted(b: Bucket, requests: seq<Request>): nat {
    if requests == [] then 0
    else
      var front, r := requests[..|requests| - 1], requests[|requests| - 1];
      Granted(b, front) + if Grants(Run(b, front), r.now, r.bytes) then r.bytes else 0
  }

  /** The clock does not go back, and no refill of the run overflows. */
  ghost predicate Steady(b: Bucket, requests: seq<Request>)
    decreases |requests|
  {
    requests != [] ==>
      var before := Run(b, requests[..|requests| - 1]);
      var r := requests[|requests| - 1];
      && Steady(b, requests[..|requests| - 1])
      && before.lastFill <= r.now
      && before.tokens + Earned(b.capacity, r.now - before.lastFill) < UINT64_WRAP
  }

  /** Whatever the clock does, the tokens never exceed the capacity. */
  lemma {:induction false} NeverOverfull(b: Bucket, requests: seq<Request>)
    requires b.tokens <= b.capacity
    ensures var e := Run(b, requests); e.capacity == b.capacity && e.tokens <= b.capacity
  {
    if requests != [] {
      NeverOverfull(b, requests[..|requests| - 1]);
    }
  }

  lemma SteadyRefill(b: Bucket, now: int)
    requires b.lastFill <= now && b.tokens + Earned(b.capacity, now - b.lastFill) < UINT64_WRAP
    ensures 0 <= Earned(b.capacity, now - b.lastFill)
    ensures Refill(b, now).tokens == Min(b.capacity, b.tokens + Earned(b.capacity, now - b.lastFill))
  {
    ProductIsNatural(now - b.lastFill, b.capacity / 1000);
  }

  lemma EarnedAdds(capacity: nat, d: int, e: int)
    ensures Earned(capacity, d) + Earned(capacity, e) == Earned(capacity, d + e)
  {
    var rate := capacity / 1000;
    assert d * rate + e * rate == (d + e) * rate;
  }

  /** What was granted and what is left is at most what was there and what was earned. */
  lemma {:induction false} Balance(b: Bucket, requests: seq<Request>)
    requires Steady(b, requests)
    ensures var e := Run(b, requests);
      && e.capacity == b.capacity && b.lastFill <= e.lastFill
      && Granted(b, requests) + e.tokens <= b.tokens + Earned(b.capacity, e.lastFill - b.lastFill)
    decreases |requests|
  {
    if requests != [] {
      var front, r := requests[..|requests| - 1], requests[|requests| - 1];
      Balance(b, front);
      var before := Run(b, front);
      SteadyRefill(before, r.now);
      EarnedAdds(b.capacity, before.lastFill - b.lastFill, r.now - before.lastFill);
    }
  }

  /** No refill of the run is cut off at the capacity. */
  ghost predicate Uncapped(b: Bucket, requests: seq<Request>)
    decreases |requests|
  {
    requests != [] ==>
      var before := Run(b, requests[..|requests| - 1]);
      && Uncapped(b, requests[..|requests| - 1])
      && before.tokens + Earned(b.capacity, requests[|requests| - 1].now - before.lastFill) <= b.capacity
  }

  /** As long as the bucket is not full, nothing is lost: what was granted and what is left is
      exactly what was there and what was earned. */
  lemma {:induction false} ExactBalance(b: Bucket, requests: seq<Request>)
    requires Steady(b, requests) && Uncapped(b, requests)
    ensures var e := Run(b, requests);
      Granted(b, requests) + e.tokens == b.tokens + Earned(b.capacity, e.lastFill - b.lastFill)
    decreases |requests|
  {
    if requests != [] {
      var front, r := requests[..|requests| - 1], requests[|requests| - 1];
      ExactBalance(b, front);
      Balance(b, front);
      var before := Run(b, front);
      SteadyRefill(before, r.now);
      EarnedAdds(b.capacity, before.lastFill - b.lastFill, r.now - before.lastFill);
    }
  }

  lemma RefillAgain(b: Bucket)
    requires b.tokens <= b.capacity < UINT64_WRAP
    ensures Refill(b, b.lastFill) == b
  {
    assert Earned(b.capacity, b.lastFill - b.lastFill) == 0;
  }

  /** Refilling before the first request of a window changes nothing. */
  lemma RefillTwice(b: Bucket, now: int, bytes: nat)
    requires b.capacity < UINT64_WRAP
    ensures Acquire(Refill(b, now), now, bytes) == Acquire(b, now, bytes)
    ensures Grants(Refill(b, now), now, bytes) == Grants(b, now, bytes)
  {
    RefillAgain(Refill(b, now));
  }

  /** Refilled first, the bucket does in a window what it does anyway. */
  lemma {:induction false} RefilledWindow(b: Bucket, first: Request, others: seq<Request>)
    requires b.capacity < UINT64_WRAP
    ensures Run(Refill(b, first.now), [first] + others) == Run(b, [first] + others)
    ensures Granted(Refill(b, first.now), [first] + others) == Granted(b, [first] + others)
    decreases |others|
  {
    var full, window := Refill(b, first.now), [first] + others;
    if others == [] {
      assert window[..|window| - 1] == [] && window[|window| - 1] == first;
      RefillTwice(b, first.now, first.bytes);
    } else {
      var n := |others| - 1;
      RefilledWindow(b, first, others[..n]);
      assert window[..|window| - 1] == [first] + others[..n] && window[|window| - 1] == others[n];
    }
  }

  lemma {:induction false} RefilledSteady(b: Bucket, first: Request, others: seq<Request>)
    requires b.tokens <= b.capacity < UINT64_WRAP && Steady(b, [first] + others)
    ensures Steady(Refill(b, first.now), [first] + others)
    decreases |others|
  {
    var full, window := Refill(b, first.now), [first] + others;
    if others == [] {
      assert window[..|window| - 1] == [] && window[|window| - 1] == first;
      assert Earned(b.capacity, first.now - full.lastFill) == 0;
    } else {
      var n := |others| - 1;
      assert window[..|window| - 1] == [first] + others[..n] && window[|window| - 1] == others[n];
      RefilledWindow(b, first, others[..n]);
      RefilledSteady(b, first, others[..n]);
    }
  }

  /** The main result: in any window of any run, the bytes granted are at most the capacity
      plus what the time from the first request of the window to its last earns. */
  lemma WindowIsBounded(b: Bucket, before: seq<Request>, first: Request, others: seq<Request>)
    requires b.tokens <= b.capacity < UINT64_WRAP && Steady(Run(b, before), [first] + others)
    ensures var window := [first] + others; var last := window[|window| - 1].now;
      Granted(Run(b, before), window) <= b.capacity + Earned(b.capacity, last - first.now)
  {
    var start, window := Run(b, before), [first] + others;
    NeverOverfull(b, before);
    RefilledSteady(start, first, others);
    RefilledWindow(start, first, others);
    Balance(Refill(start, first.now), window);
  }

  /** A whole run on the class: what it grants obeys the same bound. */
  method Serve(rate: nat, start: int, requests: seq<Request>) returns (granted: nat)
    requires Steady(Bucket(rate, rate, start), requests)
    ensures granted == Granted(Bucket(rate, rate, start), requests)
    ensures requests != [] ==> granted <= rate + Earned(rate, requests[|requests| - 1].now - start)
  {
    ghost var b := Bucket(rate, rate, start);
    var shaper := new TrafficShaper(rate, start);
    granted := 0;
    var i := 0;
    while i < |requests|
      invariant i <= |requests| && shaper.Value() == Run(b, requests[..i]) && fresh(shaper)
      invariant granted == Granted(b, requests[..i])
    {
      assert requests[..i + 1][..i] == requests[..i];
      var ok := shaper.TryAcquire(requests[i].now, requests[i].bytes);
      granted := granted + if ok then requests[i].bytes else 0;
      i := i + 1;
    }
    assert requests[..|requests|] == requests;
    Balance(b, requests);
  }

  /** When a request is granted: it fits the bucket, and what was left and what the time
      since the last call has earned cover it. */
  lemma WaitingHelps(b: Bucket, now: int, bytes: nat)
    requires b.lastFill <= now && b.tokens + Earned(b.capacity, now - b.lastFill) < UINT64_WRAP
    ensures Grants(b, now, bytes) <==>
      bytes <= b.capacity && bytes <= b.tokens + Earned(b.capacity, now - b.lastFill)
  {
    SteadyRefill(b, now);
  }

  lemma SlowRefill(b: Bucket, now: int)
    requires b.tokens <= b.capacity < 1000
    ensures Refill(b, now) == b.(lastFill := now)
  {
    assert b.capacity / 1000 == 0;
    assert Earned(b.capacity, now - b.lastFill) == 0;
  }

  /** Below 1000 bytes a second no token is ever earned: a run grants at most what the
      bucket held at its start, however long it waits. */
  lemma {:induction false} SlowBucketNeverRefills(b: Bucket, requests: seq<Request>)
    requires b.tokens <= b.capacity < 1000
    ensures Granted(b, requests) + Run(b, requests).tokens == b.tokens && Run(b, requests).capacity == b.capacity
    decreases |requests|
  {
    if requests != [] {
      var front, r := requests[..|requests| - 1], requests[|requests| - 1];
      SlowBucketNeverRefills(b, front);
      SlowRefill(Run(b, front), r.now);
    }
  }

  // ---------------------------------------------------------------------------
  // Which rates are ever refilled
  // ---------------------------------------------------------------------------

  /** Some later call is granted the bytes, and no sum overflows in it. */
  ghost predicate GrantsLater(b: Bucket, bytes: nat) {
    exists now ::
      b.lastFill <= now && b.tokens + Earned(b.capacity, now - b.lastFill) < UINT64_WRAP && Grants(b, now, bytes)
  }

  /** Whatever is left in a bucket of this capacity, any request that fits it is granted to
      a caller who waits long enough. */
  ghost predicate WaitingIsEnough(capacity: nat) {
    forall tokens: nat, last: int, bytes: nat :: tokens <= capacity && bytes <= capacity ==>
      GrantsLater(Bucket(capacity, tokens, last), bytes)
  }

  /** The first millisecond that covers the request, `rate` tokens earned in each. */
  lemma FirstEnough(missing: nat, rate: nat) returns (n: nat)
    requires 0 < rate
    ensures missing <= n * rate < missing + rate
  {
    n := 0;
    while n * rate < missing
      invariant n * rate < missing + rate
      decreases missing - n * rate
    {
      assert (n + 1) * rate == n * rate + rate;
      n := n + 1;
    }
  }

  lemma FastGrantsLater(b: Bucket, bytes: nat)
    requires b.tokens <= b.capacity && bytes <= b.capacity
    requires 1000 <= b.capacity && b.capacity + b.capacity / 1000 <= UINT64_WRAP
    ensures GrantsLater(b, bytes)
  {
    var missing := if bytes <= b.tokens then 0 else bytes - b.tokens;
    var n := FirstEnough(missing, b.capacity / 1000);
    assert Earned(b.capacity, b.lastFill + n - b.lastFill) == n * (b.capacity / 1000);
    WaitingHelps(b, b.lastFill + n, bytes);
  }

  /** Waiting is enough exactly for rates of at least 1000 bytes a second, and for a rate of 0,
      where no request of a byte fits.  (The bound keeps the capacity and one more
      millisecond below 2^64.) */
  lemma WaitingIsEnoughIffThousand(capacity: nat)
    requires capacity + capacity / 1000 <= UINT64_WRAP
    ensures WaitingIsEnough(capacity) <==> capacity == 0 || 1000 <= capacity
  {
    if 1000 <= capacity {
      forall tokens: nat, last: int, bytes: nat | tokens <= capacity && bytes <= capacity
        ensures GrantsLater(Bucket(capacity, tokens, last), bytes)
      {
        FastGrantsLater(Bucket(capacity, tokens, last), bytes);
      }
    } else if capacity == 0 {
      forall tokens: nat, last: int, bytes: nat | tokens <= capacity && bytes <= capacity
        ensures GrantsLater(Bucket(capacity, tokens, last), bytes)
      {
        WaitingHelps(Bucket(capacity, tokens, last), last, bytes);
      }
    } else {
      var empty := Bucket(capacity, 0, 0);
      forall now
        ensures !Grants(empty, now, 1)
      {
        SlowRefill(empty, now);
      }
      assert !GrantsLater(empty, 1);
    }
  }

  /** A second earns the rate rounded down to thousands: the whole of it exactly if it is a
      multiple of 1000. */
  lemma SecondEarnsThousands(capacity: nat)
    ensures Earned(capacity, 1000) == capacity - capacity % 1000
    ensures Earned(capacity, 1000) == capacity <==> capacity % 1000 == 0
  {
    assert capacity == capacity / 1000 * 1000 + capacity % 1000;
  }
}
