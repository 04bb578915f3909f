/** The rate limiter's token bucket, over exact real arithmetic. */
module TokenBucket {
  import opened Sequences

  const EXPIRY := 60.0

  /** The stored hash; absent when the key was never written or has expired. */
  datatype Bucket = Bucket(tokens: real, lastRefill: real)

  datatype Reply = Reply(bucket: Bucket, granted: bool)

  function MinR(a: real, b: real): real {
    if a < b then a else b
  }

  function MaxR(a: real, b: real): real {
    if a < b then b else a
  }

  /** The tokens at `now`: time that runs backwards brings none in. */
  function Refill(b: Bucket, rate: real, burst: nat, now: real): real {
    MinR(burst as real, b.tokens + MaxR(0.0, now - b.lastRefill) * rate)
  }

  /** One atomic call of the script at time `now`. */
  function Take(stored: Option<Bucket>, rate: real, burst: nat, now: real): Reply {
    var b := match stored case Some(x) => x case None => Bucket(burst as real, now);
    var tokens := Refill(b, rate, burst, now);
    if tokens >= 1.0 then Reply(Bucket(tokens - 1.0, now), true) else Reply(Bucket(tokens, now), false)
  }

  /** What Redis still holds at `now`: the key lives for EXPIRY after its last write. */
  function Unexpired(stored: Option<Bucket>, now: real): Option<Bucket> {
    match stored
    case None => None
    case Some(b) => if now - b.lastRefill >= EXPIRY then None else stored
  }

  /** The replies to calls at the given times, with or without the key expiring. */
  function Replies(stored: Option<Bucket>, rate: real, burst: nat, times: seq<real>, expiring: bool): seq<bool>
    decreases times
  {
    if times == [] then []
    else
      var r := Take(if expiring then Unexpired(stored, times[0]) else stored, rate, burst, times[0]);
      [r.granted] + Replies(Some(r.bucket), rate, burst, times[1..], expiring)
  }

  function Grants(replies: seq<bool>): nat {
    if replies == [] then 0 else (if replies[0] then 1 else 0) + Grants(replies[1..])
  }

  /** Clock readings never go back, from `since` on. */
  ghost predicate Forward(since: real, times: seq<real>)
    decreases times
  {
    times != [] ==> since <= times[0] && Forward(times[0], times[1..])
  }

  ghost predicate Sane(b: Bucket, burst: nat) {
    0.0 <= b.tokens <= burst as real
  }

  /** More time brings in no fewer tokens. */
  lemma RefillGrows(rate: real, less: real, more: real)
    requires rate >= 0.0 && less <= more
    ensures less * rate <= more * rate
  {
    NonNegativeProduct(more - less, rate);
    assert (more - less) * rate == more * rate - less * rate;
  }

  lemma NonNegativeProduct(x: real, y: real)
    requires x >= 0.0 && y >= 0.0
    ensures x * y >= 0.0
  {
  }

  lemma TakeSane(stored: Option<Bucket>, rate: real, burst: nat, now: real)
    requires rate >= 0.0 && (stored.Some? ==> Sane(stored.value, burst))
    ensures var r := Take(stored, rate, burst, now); Sane(r.bucket, burst) && r.bucket.lastRefill == now
  {
    match stored {
      case None =>
      case Some(b) =>
        var elapsed := MaxR(0.0, now - b.lastRefill);
        RefillGrows(rate, 0.0, elapsed);
    }
  }

  function Granted(r: Reply): real {
    if r.granted then 1.0 else 0.0
  }

  /** The time that has passed from `since` over some clock readings: steps forward count, steps back do not. */
  function Advance(since: real, times: seq<real>): real
    decreases times
  {
    if times == [] then 0.0 else MaxR(0.0, times[0] - since) + Advance(times[0], times[1..])
  }

  /** What comes in from `since` to `now`. */
  function Inflow(rate: real, since: real, now: real): real {
    rate * MaxR(0.0, now - since)
  }

  /** A call hands out or keeps no more than was there and has come in since. */
  lemma TakeConserves(b: Bucket, rate: real, burst: nat, now: real)
    requires rate >= 0.0 && Sane(b, burst)
    ensures var r := Take(Some(b), rate, burst, now);
            r.bucket.tokens + Granted(r) <= b.tokens + Inflow(rate, b.lastRefill, now)
  {
    var elapsed := MaxR(0.0, now - b.lastRefill);
    assert elapsed * rate == rate * elapsed;
  }

  /** The first call of a window starts from at most a full bucket. */
  lemma FirstCall(stored: Option<Bucket>, rate: real, burst: nat, now: real)
    requires rate >= 0.0 && (stored.Some? ==> Sane(stored.value, burst))
    ensures var r := Take(stored, rate, burst, now); r.bucket.tokens + Granted(r) <= burst as real
  {
  }

  /** What one call does, and that the other calls start from where it leaves the bucket. */
  lemma FirstReply(stored: Option<Bucket>, rate: real, burst: nat, times: seq<real>) returns (r: Reply)
    requires rate >= 0.0 && times != []
    requires stored.Some? ==> Sane(stored.value, burst)
    ensures Sane(r.bucket, burst) && r.bucket.lastRefill == times[0]
    ensures r.bucket.tokens + Granted(r) <= burst as real
    ensures stored.Some? ==>
              r.bucket.tokens + Granted(r) <= stored.value.tokens + Inflow(rate, stored.value.lastRefill, times[0])
    ensures Replies(stored, rate, burst, times, false)
         == [r.granted] + Replies(Some(r.bucket), rate, burst, times[1..], false)
  {
    r := Take(stored, rate, burst, times[0]);
    TakeSane(stored, rate, burst, times[0]);
    FirstCall(stored, rate, burst, times[0]);
    if stored.Some? {
      TakeConserves(stored.value, rate, burst, times[0]);
    }
  }

  lemma GrantsSplit(r: Reply, tail: seq<bool>)
    ensures Grants([r.granted] + tail) as real == Granted(r) + Grants(tail) as real
  {
    assert ([r.granted] + tail)[1..] == tail;
  }

  /** What comes in between one call and the next, added up. */
  function Inflows(rate: real, since: real, times: seq<real>): real
    decreases times
  {
    if times == [] then 0.0 else Inflow(rate, since, times[0]) + Inflows(rate, times[0], times[1..])
  }

  lemma InflowAdds(rate: real, step: real, later: real)
    ensures rate * (step + later) == rate * step + rate * later
  {
  }

  lemma {:induction false} InflowsAdvance(rate: real, since: real, times: seq<real>)
    ensures Inflows(rate, since, times) == rate * Advance(since, times)
    decreases times
  {
    if times == [] {
      assert rate * 0.0 == 0.0;
    } else {
      InflowsAdvance(rate, times[0], times[1..]);
      InflowAdds(rate, MaxR(0.0, times[0] - since), Advance(times[0], times[1..]));
    }
  }

  /** The last of some calls, or the time before them. */
  function Last(since: real, times: seq<real>): real {
    if times == [] then since else times[|times| - 1]
  }

  lemma {:induction false} ForwardAdvance(since: real, times: seq<real>)
    requires Forward(since, times)
    ensures Advance(since, times) == Last(since, times) - since
    decreases times
  {
    if times != [] {
      ForwardAdvance(times[0], times[1..]);
    }
  }

  /** Tokens are conserved, whatever the clock does: what is granted is no more than what was there plus what
      has come in. */
  lemma {:induction false} GrantsBounded(b: Bucket, rate: real, burst: nat, times: seq<real>)
    requires rate >= 0.0 && Sane(b, burst)
    ensures Grants(Replies(Some(b), rate, burst, times, false)) as real <= b.tokens + Inflows(rate, b.lastRefill, times)
    decreases times
  {
    if times != [] {
      var r := FirstReply(Some(b), rate, burst, times);
      GrantsBounded(r.bucket, rate, burst, times[1..]);
      GrantsSplit(r, Replies(Some(r.bucket), rate, burst, times[1..], false));
    }
  }

  lemma GrantsWithin(stored: Option<Bucket>, rate: real, burst: nat, times: seq<real>)
    requires rate >= 0.0 && times != []
    requires stored.Some? ==> Sane(stored.value, burst)
    ensures Grants(Replies(stored, rate, burst, times, false)) as real
            <= burst as real + Inflows(rate, times[0], times[1..])
  {
    var r := FirstReply(stored, rate, burst, times);
    GrantsBounded(r.bucket, rate, burst, times[1..]);
    GrantsSplit(r, Replies(Some(r.bucket), rate, burst, times[1..], false));
  }

  lemma WindowInflows(rate: real, times: seq<real>)
    requires times != []
    ensures Inflows(rate, times[0], times[1..]) == rate * Advance(times[0], times)
  {
    InflowsAdvance(rate, times[0], times[1..]);
    assert Advance(times[0], times) == Advance(times[0], times[1..]);
  }

  /** The window bound: whatever came before and whatever the clock reads, calls are granted at most burst + rate
      times the time that passes between them; with a clock that does not go back, that is from first to last. */
  lemma WindowBound(stored: Option<Bucket>, rate: real, burst: nat, times: seq<real>)
    requires rate >= 0.0 && times != []
    requires stored.Some? ==> Sane(stored.value, burst)
    ensures Grants(Replies(stored, rate, burst, times, false)) as real
            <= burst as real + rate * Advance(times[0], times)
    ensures Forward(times[0], times) ==> Advance(times[0], times) == Last(times[0], times) - times[0]
  {
    GrantsWithin(stored, rate, burst, times);
    WindowInflows(rate, times);
    if Forward(times[0], times) {
      ForwardAdvance(times[0], times);
    }
  }

  // ---- Expiry ----

  /** When sixty seconds refill the bucket, an expired key and a kept one answer alike. */
  lemma ExpiredIsFull(b: Bucket, rate: real, burst: nat, now: real)
    requires rate >= 0.0 && burst as real <= EXPIRY * rate && Sane(b, burst) && now - b.lastRefill >= EXPIRY
    ensures Take(Some(b), rate, burst, now) == Take(None, rate, burst, now)
  {
    var elapsed := now - b.lastRefill;
    RefillGrows(rate, EXPIRY, elapsed);
    assert MaxR(0.0, now - now) * rate == 0.0;
  }

  lemma {:induction false} ExpiryUnseen(stored: Option<Bucket>, rate: real, burst: nat, times: seq<real>)
    requires rate >= 0.0 && burst as real <= EXPIRY * rate
    requires stored.Some? ==> Sane(stored.value, burst)
    ensures Replies(stored, rate, burst, times, true) == Replies(stored, rate, burst, times, false)
    decreases times
  {
    if times != [] {
      var now := times[0];
      if stored.Some? && now - stored.value.lastRefill >= EXPIRY {
        ExpiredIsFull(stored.value, rate, burst, now);
      }
      TakeSane(stored, rate, burst, now);
      ExpiryUnseen(Some(Take(stored, rate, burst, now).bucket), rate, burst, times[1..]);
    }
  }

  /** The same bound for the bucket as Redis keeps it, expiry included. */
  lemma WindowBoundServed(stored: Option<Bucket>, rate: real, burst: nat, times: seq<real>)
    requires rate >= 0.0 && times != [] && burst as real <= 60.0 * rate
    requires stored.Some? ==> Sane(stored.value, burst)
    ensures Grants(Replies(stored, rate, burst, times, true)) as real
            <= burst as real + rate * Advance(times[0], times)
  {
    ExpiryUnseen(stored, rate, burst, times);
    WindowBound(stored, rate, burst, times);
  }

  lemma {:induction false} AllGrantedGrants(n: nat)
    ensures Grants(Repeat(true, n)) == n && |Repeat(true, n)| == n
  {
    if n > 0 {
      AllGrantedGrants(n - 1);
      assert Repeat(true, n)[1..] == Repeat(true, n - 1);
    }
  }

  lemma TakeAtOnce(b: Bucket, rate: real, burst: nat)
    requires Sane(b, burst) && b.tokens >= 1.0
    ensures Take(Some(b), rate, burst, b.lastRefill) == Reply(Bucket(b.tokens - 1.0, b.lastRefill), true)
  {
    assert MaxR(0.0, b.lastRefill - b.lastRefill) * rate == 0.0;
  }

  /** A bucket with n tokens grants n calls made at once, and is left with the rest; the calls that follow
      see just that. */
  lemma {:induction false} BurstGranted(b: Bucket, rate: real, burst: nat, n: nat, later: seq<real>, expiring: bool)
    requires Sane(b, burst) && b.tokens >= n as real
    ensures Replies(Some(b), rate, burst, Repeat(b.lastRefill, n) + later, expiring)
         == Repeat(true, n) + Replies(Some(Bucket(b.tokens - n as real, b.lastRefill)), rate, burst, later, expiring)
    decreases n
  {
    var times := Repeat(b.lastRefill, n) + later;
    if n == 0 {
      assert times == later;
      assert Repeat(true, 0) + Replies(Some(b), rate, burst, later, expiring)
             == Replies(Some(b), rate, burst, later, expiring);
    } else {
      var next := Bucket(b.tokens - 1.0, b.lastRefill);
      assert times[1..] == Repeat(b.lastRefill, n - 1) + later;
      OneGranted(b, rate, burst, times, expiring);
      BurstGranted(next, rate, burst, n - 1, later, expiring);
      assert next.tokens - (n - 1) as real == b.tokens - n as real;
      var rest := Replies(Some(Bucket(b.tokens - n as real, b.lastRefill)), rate, burst, later, expiring);
      assert [true] + (Repeat(true, n - 1) + rest) == Repeat(true, n) + rest;
    }
  }

  lemma OneGranted(b: Bucket, rate: real, burst: nat, times: seq<real>, expiring: bool)
    requires Sane(b, burst) && b.tokens >= 1.0 && times != [] && times[0] == b.lastRefill
    ensures Replies(Some(b), rate, burst, times, expiring)
         == [true] + Replies(Some(Bucket(b.tokens - 1.0, b.lastRefill)), rate, burst, times[1..], expiring)
  {
    TakeAtOnce(b, rate, burst);
  }

  lemma {:induction false} ForwardRepeat(t: real, n: nat)
    ensures Forward(t, Repeat(t, n))
  {
    if n > 0 {
      ForwardRepeat(t, n - 1);
      assert Repeat(t, n)[1..] == Repeat(t, n - 1);
    }
  }

  const DRAINED := Bucket(0.0, 0.0)

  /** Sixty seconds after it was emptied, a kept bucket cannot grant a full burst. */
  lemma KeptFallsShort(rate: real, burst: nat)
    requires rate >= 0.0 && burst as real > EXPIRY * rate
    ensures Grants(Replies(Some(DRAINED), rate, burst, Repeat(EXPIRY, burst), false)) < burst
  {
    ForwardRepeat(EXPIRY, burst);
    GrantsBounded(DRAINED, rate, burst, Repeat(EXPIRY, burst));
    InflowsAdvance(rate, 0.0, Repeat(EXPIRY, burst));
    ForwardAdvance(0.0, Repeat(EXPIRY, burst));
    assert rate * (EXPIRY - 0.0) == EXPIRY * rate;
  }

  /** As many calls as the bucket holds, and as many again sixty seconds later. */
  function TwoBursts(burst: nat): seq<real> {
    Repeat(0.0, burst) + Repeat(EXPIRY, burst)
  }

  /** The first call writes what a full bucket would have become. */
  lemma FirstWrite(rate: real, burst: nat, times: seq<real>, expiring: bool)
    requires times != [] && times[0] == 0.0
    ensures Replies(None, rate, burst, times, expiring)
         == Replies(Some(Bucket(burst as real, 0.0)), rate, burst, times, expiring)
  {
  }

  /** From an absent key, the first burst is granted whole, and leaves the bucket empty for the second. */
  lemma AfterBurst(rate: real, burst: nat, expiring: bool)
    requires burst > 0
    ensures Replies(None, rate, burst, TwoBursts(burst), expiring)
         == Repeat(true, burst) + Replies(Some(DRAINED), rate, burst, Repeat(EXPIRY, burst), expiring)
  {
    FirstWrite(rate, burst, TwoBursts(burst), expiring);
    BurstGranted(Bucket(burst as real, 0.0), rate, burst, burst, Repeat(EXPIRY, burst), expiring);
    assert Bucket(burst as real - burst as real, 0.0) == DRAINED;
  }

  lemma ExpiredRefills(rate: real, burst: nat)
    requires rate >= 0.0 && burst > 0
    ensures Grants(Replies(Some(DRAINED), rate, burst, Repeat(EXPIRY, burst), true)) == burst
  {
    var again := Repeat(EXPIRY, burst);
    var first := Take(None, rate, burst, EXPIRY);
    assert MaxR(0.0, EXPIRY - EXPIRY) * rate == 0.0;
    assert first == Reply(Bucket(burst as real - 1.0, EXPIRY), true);
    assert again[1..] == Repeat(EXPIRY, burst - 1) == Repeat(EXPIRY, burst - 1) + [];
    BurstGranted(first.bucket, rate, burst, burst - 1, [], true);
    AllGrantedGrants(burst - 1);
    assert Repeat(true, burst - 1) + [] == Repeat(true, burst - 1);
    var replies := Replies(Some(DRAINED), rate, burst, again, true);
    assert replies == [true] + Repeat(true, burst - 1);
    assert replies[1..] == Repeat(true, burst - 1);
  }

  lemma {:induction false} GrantsAfterBurst(n: nat, rest: seq<bool>)
    ensures Grants(Repeat(true, n) + rest) == n + Grants(rest)
  {
    if n == 0 {
      assert Repeat(true, 0) + rest == rest;
    } else {
      GrantsAfterBurst(n - 1, rest);
      assert (Repeat(true, n) + rest)[1..] == Repeat(true, n - 1) + rest;
    }
  }

  /** When sixty seconds do not refill the bucket, emptying it, waiting sixty seconds and asking for as many
      again tells the difference: only an expired key can grant them all. */
  lemma ExpirySeen(rate: real, burst: nat)
    requires rate >= 0.0 && burst as real > EXPIRY * rate
    ensures Grants(Replies(None, rate, burst, TwoBursts(burst), true)) == 2 * burst
    ensures Grants(Replies(None, rate, burst, TwoBursts(burst), false)) < 2 * burst
  {
    NonNegativeProduct(EXPIRY, rate);
    KeptFallsShort(rate, burst);
    ExpiredRefills(rate, burst);
    AfterBurst(rate, burst, true);
    AfterBurst(rate, burst, false);
    GrantsAfterBurst(burst, Replies(Some(DRAINED), rate, burst, Repeat(EXPIRY, burst), true));
    GrantsAfterBurst(burst, Replies(Some(DRAINED), rate, burst, Repeat(EXPIRY, burst), false));
  }

  /** The sixty-second expiry of the key changes no decision, whatever the calls to a key first seen absent,
      exactly when sixty seconds refill the bucket; and then from any stored bucket too. */
  lemma ExpiryHarmlessIff(rate: real, burst: nat)
    requires rate >= 0.0
    ensures (forall times: seq<real> ::
               Replies(None, rate, burst, times, true) == Replies(None, rate, burst, times, false))
       <==> burst as real <= 60.0 * rate
    ensures burst as real <= 60.0 * rate ==>
              forall b: Bucket, times: seq<real> :: Sane(b, burst) ==>
                Replies(Some(b), rate, burst, times, true) == Replies(Some(b), rate, burst, times, false)
  {
    if burst as real <= EXPIRY * rate {
      forall times: seq<real>
        ensures Replies(None, rate, burst, times, true) == Replies(None, rate, burst, times, false)
      {
        ExpiryUnseen(None, rate, burst, times);
      }
      forall b: Bucket, times: seq<real> | Sane(b, burst)
        ensures Replies(Some(b), rate, burst, times, true) == Replies(Some(b), rate, burst, times, false)
      {
        ExpiryUnseen(Some(b), rate, burst, times);
      }
    } else {
      ExpirySeen(rate, burst);
    }
  }

  lemma TwoBurstsForward(burst: nat)
    requires burst > 0
    ensures Forward(0.0, TwoBursts(burst)) && Last(0.0, TwoBursts(burst)) == EXPIRY
  {
    BurstThenLater(burst, burst);
  }

  lemma {:induction false} BurstThenLater(n: nat, burst: nat)
    ensures Forward(0.0, Repeat(0.0, n) + Repeat(EXPIRY, burst))
  {
    if n == 0 {
      ForwardRepeat(EXPIRY, burst);
      assert Repeat(0.0, 0) + Repeat(EXPIRY, burst) == Repeat(EXPIRY, burst);
    } else {
      BurstThenLater(n - 1, burst);
      assert (Repeat(0.0, n) + Repeat(EXPIRY, burst))[1..] == Repeat(0.0, n - 1) + Repeat(EXPIRY, burst);
    }
  }

  /** The limit the bucket is there for: no more than burst plus rate times the time between first and last. */
  ghost predicate Limited(rate: real, burst: nat, times: seq<real>)
    requires times != []
  {
    Grants(Replies(None, rate, burst, times, true)) as real
      <= burst as real + rate * (Last(times[0], times) - times[0])
  }

  lemma ServedLimited(rate: real, burst: nat, times: seq<real>)
    requires rate >= 0.0 && burst as real <= EXPIRY * rate && times != [] && Forward(times[0], times)
    ensures Limited(rate, burst, times)
  {
    WindowBoundServed(None, rate, burst, times);
    ForwardAdvance(times[0], times);
  }

  lemma TwoBurstsExceed(rate: real, burst: nat)
    requires rate >= 0.0 && burst as real > EXPIRY * rate && burst > 0
    ensures !Limited(rate, burst, TwoBursts(burst))
  {
    ExpirySeen(rate, burst);
    TwoBurstsForward(burst);
    assert rate * (EXPIRY - 0.0) == EXPIRY * rate;
  }

  /** It holds of the bucket as Redis keeps it, over all calls with a clock that does not go back, exactly when
      sixty seconds refill the bucket. */
  lemma WindowBoundServedIff(rate: real, burst: nat)
    requires rate >= 0.0
    ensures (forall times: seq<real> :: times != [] && Forward(times[0], times) ==> Limited(rate, burst, times))
       <==> burst as real <= 60.0 * rate
  {
    if burst as real <= EXPIRY * rate {
      forall times: seq<real> | times != [] && Forward(times[0], times) ensures Limited(rate, burst, times) {
        ServedLimited(rate, burst, times);
      }
    } else {
      NonNegativeProduct(EXPIRY, rate);
      TwoBurstsForward(burst);
      TwoBurstsExceed(rate, burst);
    }
  }

  // ---- What a caller is sure to get ----

  /** A call is granted exactly when a whole token is there, counting what has come in since the last one. */
  lemma GrantedIff(b: Bucket, rate: real, burst: nat, now: real)
    requires rate >= 0.0 && b.lastRefill <= now && burst >= 1
    ensures var r := Take(Some(b), rate, burst, now);
            r.granted <==> b.tokens + rate * (now - b.lastRefill) >= 1.0
  {
    assert (now - b.lastRefill) * rate == rate * (now - b.lastRefill);
  }

  /** A refusal costs nothing: the bucket has all it had and all that has come in. */
  lemma RefusalKeeps(b: Bucket, rate: real, burst: nat, now: real)
    requires rate >= 0.0 && b.lastRefill <= now && burst >= 1 && !Take(Some(b), rate, burst, now).granted
    ensures Take(Some(b), rate, burst, now).bucket == Bucket(b.tokens + rate * (now - b.lastRefill), now)
  {
    assert (now - b.lastRefill) * rate == rate * (now - b.lastRefill);
  }

  lemma FullGrants(rate: real, burst: nat, now: real)
    requires burst >= 1
    ensures Take(None, rate, burst, now).granted
  {
    assert MaxR(0.0, now - now) * rate == 0.0;
  }

  /** Nobody who keeps asking starves: some call is granted as soon as a whole token has come in since the last
      one before them, however often they ask in between, and whether or not the key expires. */
  lemma {:induction false} NoStarvation(b: Bucket, rate: real, burst: nat, times: seq<real>, expiring: bool)
    requires rate >= 0.0 && burst >= 1 && times != [] && Forward(b.lastRefill, times)
    requires b.tokens + rate * (Last(b.lastRefill, times) - b.lastRefill) >= 1.0
    ensures true in Replies(Some(b), rate, burst, times, expiring)
    decreases times
  {
    var now := times[0];
    var replies := Replies(Some(b), rate, burst, times, expiring);
    if expiring && now - b.lastRefill >= EXPIRY {
      FullGrants(rate, burst, now);
      assert replies[0];
    } else {
      var r := Take(Some(b), rate, burst, now);
      if r.granted {
        assert replies[0];
      } else {
        GrantedIff(b, rate, burst, now);
        RefusalKeeps(b, rate, burst, now);
        assert times[1..] != [];
        assert Last(now, times[1..]) == Last(b.lastRefill, times);
        InflowAdds(rate, now - b.lastRefill, Last(b.lastRefill, times) - now);
        NoStarvation(r.bucket, rate, burst, times[1..], expiring);
        assert true in replies[1..];
      }
    }
  }

  /** Calls in quick succession: forward in time, and no more than one token coming in between two of them. */
  ghost predicate Steady(rate: real, since: real, times: seq<real>)
    decreases times
  {
    times != [] ==>
      since <= times[0] < since + EXPIRY && Inflow(rate, since, times[0]) <= 1.0 && Steady(rate, times[0], times[1..])
  }

  /** Nothing overflows then: a call hands out or keeps exactly what was there and has come in. */
  lemma SteadyCall(b: Bucket, rate: real, burst: nat, now: real)
    requires rate >= 0.0 && burst >= 2 && 0.0 <= b.tokens <= burst as real - 1.0
    requires b.lastRefill <= now && Inflow(rate, b.lastRefill, now) <= 1.0
    ensures var r := Take(Some(b), rate, burst, now);
            && r.bucket.tokens + Granted(r) == b.tokens + Inflow(rate, b.lastRefill, now)
            && 0.0 <= r.bucket.tokens <= burst as real - 1.0 && r.bucket.lastRefill == now
  {
    assert (now - b.lastRefill) * rate == rate * (now - b.lastRefill);
    NonNegativeProduct(now - b.lastRefill, rate);
  }

  lemma SteadyReply(b: Bucket, rate: real, burst: nat, times: seq<real>, expiring: bool) returns (r: Reply)
    requires rate >= 0.0 && burst >= 2 && 0.0 <= b.tokens <= burst as real - 1.0
    requires Steady(rate, b.lastRefill, times) && times != []
    ensures r.bucket.tokens + Granted(r) == b.tokens + Inflow(rate, b.lastRefill, times[0])
    ensures 0.0 <= r.bucket.tokens <= burst as real - 1.0 && r.bucket.lastRefill == times[0]
    ensures Steady(rate, times[0], times[1..])
    ensures Grants(Replies(Some(b), rate, burst, times, expiring)) as real
         == Granted(r) + Grants(Replies(Some(r.bucket), rate, burst, times[1..], expiring)) as real
  {
    r := Take(Some(b), rate, burst, times[0]);
    SteadyCall(b, rate, burst, times[0]);
    GrantsFrom(b, rate, burst, times, expiring);
  }

  lemma GrantsFrom(b: Bucket, rate: real, burst: nat, times: seq<real>, expiring: bool)
    requires times != [] && times[0] < b.lastRefill + EXPIRY
    ensures var r := Take(Some(b), rate, burst, times[0]);
            Grants(Replies(Some(b), rate, burst, times, expiring)) as real
              == Granted(r) + Grants(Replies(Some(r.bucket), rate, burst, times[1..], expiring)) as real
  {
    var r := Take(Some(b), rate, burst, times[0]);
    GrantsSplit(r, Replies(Some(r.bucket), rate, burst, times[1..], expiring));
  }

  /** The calls are granted all that was there and has come in, but for less than burst. */
  ghost predicate Earned(b: Bucket, rate: real, burst: nat, times: seq<real>, expiring: bool, came: real) {
    var granted := Grants(Replies(Some(b), rate, burst, times, expiring)) as real;
    b.tokens + came - (burst as real - 1.0) <= granted <= b.tokens + came
  }

  /** A lower bound on grants: a caller who asks steadily is granted everything that was there and came in, but for
      what the bucket holds at the end, less than burst. */
  lemma {:induction false} SteadyGrants(b: Bucket, rate: real, burst: nat, times: seq<real>, expiring: bool)
    requires rate >= 0.0 && burst >= 2 && 0.0 <= b.tokens <= burst as real - 1.0
    requires Steady(rate, b.lastRefill, times)
    ensures Forward(b.lastRefill, times)
    ensures Earned(b, rate, burst, times, expiring, Inflows(rate, b.lastRefill, times))
    decreases times
  {
    if times != [] {
      var r := SteadyReply(b, rate, burst, times, expiring);
      SteadyGrants(r.bucket, rate, burst, times[1..], expiring);
    }
  }

  // ---- As it runs ----

  class RedisBucket {
    const rate: real
    const burst: nat
    var stored: Option<Bucket>

    constructor (rate: real, burst: nat)
      ensures this.rate == rate && this.burst == burst && stored == None
    {
      this.rate, this.burst, stored := rate, burst, None;
    }

    method RefillAndTake(now: real) returns (granted: bool)
      modifies this`stored
      ensures var r := Take(Unexpired(old(stored), now), rate, burst, now);
              stored == Some(r.bucket) && granted == r.granted
    {
      var tokens, lastRefill := burst as real, now;
      match Unexpired(stored, now) {
        case None =>
        case Some(b) => tokens, lastRefill := b.tokens, b.lastRefill;
      }
      tokens := Refill(Bucket(tokens, lastRefill), rate, burst, now);
      granted := tokens >= 1.0;
      if granted {
        tokens := tokens - 1.0;
      }
      stored := Some(Bucket(tokens, now));
    }

    /** The replies to a sequence of calls. */
    method Serve(times: seq<real>) returns (replies: seq<bool>)
      modifies this`stored
      ensures replies == Replies(old(stored), rate, burst, times, true)
    {
      replies := [];
      var i := 0;
      while i < |times|
        invariant 0 <= i <= |times|
        invariant replies + Replies(stored, rate, burst, times[i..], true)
                  == Replies(old(stored), rate, burst, times, true)
      {
        assert times[i..][1..] == times[i + 1..];
        var granted := RefillAndTake(times[i]);
        replies := replies + [granted];
        i := i + 1;
      }
      assert replies + [] == replies;
    }
  }
}
