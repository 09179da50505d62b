/** The token bucket of internal/grpc/ratelimit.go, over real-valued time and tokens. */
module TokenBucket {

  function Min(a: real, b: real): real { if a < b then a else b }

  lemma ProductSign(x: real, y: real)
    requires x >= 0.0 && y >= 0.0
    ensures x * y >= 0.0
  {}

  /** Tokens earned in a span of time. */
  function Gain(elapsed: real, rate: real): real { elapsed * rate }

  lemma GainIs(elapsed: real, rate: real)
    ensures Gain(elapsed, rate) == elapsed * rate
  {}

  lemma GainAdds(d: real, e: real, rate: real)
    ensures Gain(d + e, rate) == Gain(d, rate) + Gain(e, rate)
  {}

  lemma Commutes(x: real, y: real)
    ensures x * y == y * x
  {}

  datatype Bucket = Bucket(tokens: real, maxTokens: real, refillRate: real, lastRefill: real)

  function Refilled(b: Bucket, now: real): Bucket {
    b.(tokens := Min(b.maxTokens, b.tokens + Gain(now - b.lastRefill, b.refillRate)), lastRefill := now)
  }

  function Allowed(b: Bucket, now: real): (Bucket, bool) {
    var r := Refilled(b, now);
    if r.tokens >= 1.0 then (r.(tokens := r.tokens - 1.0), true) else (r, false)
  }

  class TokenBucketLimiter {
    var tokens: real
    const maxTokens: real
    const refillRate: real
    var lastRefill: real

    ghost function Value(): Bucket
      reads this
    {
      Bucket(tokens, maxTokens, refillRate, lastRefill)
    }

    constructor (ratePerSecond: real, burstSize: real, now: real)
      ensures Value() == Bucket(burstSize, burstSize, ratePerSecond, now)
    {
      tokens, maxTokens, refillRate, lastRefill := burstSize, burstSize, ratePerSecond, now;
    }

    method Allow(now: real) returns (ok: bool)
      modifies this
      ensures (Value(), ok) == Allowed(old(Value()), now)
    {
      hide Gain;
      var elapsed := now - lastRefill;
      tokens := Min(maxTokens, tokens + Gain(elapsed, refillRate));
      lastRefill := now;
      if tokens >= 1.0 {
        tokens := tokens - 1.0;
        return true;
      }
      return false;
    }

    method Tokens(now: real) returns (r: real)
      ensures r == Refilled(Value(), now).tokens
      ensures r <= maxTokens && r <= tokens + (now - lastRefill) * refillRate
      ensures r == maxTokens || r == tokens + (now - lastRefill) * refillRate
    {
      GainIs(now - lastRefill, refillRate);
      hide Gain;
      var elapsed := now - lastRefill;
      r := Min(maxTokens, tokens + Gain(elapsed, refillRate));
    }
  }

  /** A limiter and the times of its requests: `start` is its creation. */
  datatype Session = Session(rate: real, burst: real, start: real, times: seq<real>) {

    /** The bucket after the first n requests. */
    function State(n: nat): Bucket
      requires n <= |times|
    {
      if n == 0 then Bucket(burst, burst, rate, start) else Allowed(State(n - 1), times[n - 1]).0
    }

    predicate Granted(n: nat)
      requires n < |times|
    {
      Allowed(State(n), times[n]).1
    }

    /** How many of the requests i, ..., j-1 are granted. */
    function Grants(i: nat, j: nat): nat
      requires i <= j <= |times|
    {
      if i == j then 0 else Grants(i, j - 1) + if Granted(j - 1) then 1 else 0
    }

    /** The tokens request n finds. */
    function Level(n: nat): real
      requires n < |times|
    {
      Refilled(State(n), times[n]).tokens
    }

    /** Tokens earned between two instants. */
    function Earned(from: real, to: real): real { Gain(to - from, rate) }

    lemma EarnedIs(from: real, to: real)
      ensures Earned(from, to) == rate * (to - from)
    {
      Commutes(to - from, rate);
    }

    lemma EarnedGrows(a: real, b: real)
      requires rate >= 0.0 && a <= b
      ensures Earned(a, b) >= 0.0
    {
      ProductSign(b - a, rate);
    }

    lemma EarnedAdds(a: real, b: real, c: real)
      ensures Earned(a, c) == Earned(a, b) + Earned(b, c)
    {
      hide Gain;
      GainAdds(b - a, c - b, rate);
      assert b - a + (c - b) == c - a;
    }

    /** What the window from request j to request n leaves for request n. */
    function Left(j: nat, n: nat): real
      requires j <= n < |times|
    {
      burst + Earned(times[j], times[n]) - Grants(j, n) as real
    }

    /** The same for the window that starts at the limiter's creation. */
    function LeftFromStart(n: nat): real
      requires n < |times|
    {
      burst + Earned(start, times[n]) - Grants(0, n) as real
    }

    lemma {:induction false} StateShape(n: nat)
      requires n <= |times|
      ensures State(n).maxTokens == burst && State(n).refillRate == rate
      ensures State(n).lastRefill == if n == 0 then start else times[n - 1]
      ensures n > 0 ==> State(n).tokens == Level(n - 1) - if Granted(n - 1) then 1.0 else 0.0
    {
      if n > 0 { StateShape(n - 1); }
    }

    function Spent(n: nat): nat
      requires n < |times|
    {
      if Granted(n) then 1 else 0
    }

    lemma LevelStep(n: nat)
      requires 0 < n < |times|
      ensures Level(n) == Min(burst, Level(n - 1) - Spent(n - 1) as real + Earned(times[n - 1], times[n]))
    {
      hide Gain;
      StateShape(n);
      hide State, Granted, Min;
      assert State(n).tokens == Level(n - 1) - Spent(n - 1) as real;
    }

    lemma LevelStart()
      requires 0 < |times|
      ensures Level(0) == Min(Left(0, 0), LeftFromStart(0))
    {
      assert Earned(times[0], times[0]) == 0.0;
    }

    lemma LeftStep(j: nat, n: nat)
      requires j < n < |times|
      ensures Left(j, n) == Left(j, n - 1) - Spent(n - 1) as real + Earned(times[n - 1], times[n])
    {
      hide Earned, Granted;
      EarnedAdds(times[j], times[n - 1], times[n]);
    }

    lemma LeftFromStartStep(n: nat)
      requires 0 < n < |times|
      ensures LeftFromStart(n) == LeftFromStart(n - 1) - Spent(n - 1) as real + Earned(times[n - 1], times[n])
    {
      hide Earned, Granted;
      EarnedAdds(start, times[n - 1], times[n]);
    }

    lemma LeftNow(n: nat)
      requires n < |times|
      ensures Left(n, n) == burst
    {
      assert Earned(times[n], times[n]) == 0.0;
    }

    /**
     * The O(1) state is the tightest of all windows: the tokens found are a lower bound of what every
     * window leaves, and some window leaves exactly that. Holds for any clock and any rate.
     */
    lemma {:induction false} LevelIsTightest(n: nat)
      requires n < |times|
      ensures Level(n) <= LeftFromStart(n) && forall j | 0 <= j <= n :: Level(n) <= Left(j, n)
      ensures Level(n) == LeftFromStart(n) || exists j | 0 <= j <= n :: Level(n) == Left(j, n)
    {
      hide Level, Left, LeftFromStart, Earned, Spent;
      LeftNow(n);
      if n == 0 {
        LevelStart();
      } else {
        LevelIsTightest(n - 1);
        LevelStep(n);
        LeftFromStartStep(n);
        forall j | 0 <= j < n { LeftStep(j, n); }
        if Level(n - 1) != LeftFromStart(n - 1) {
          var j :| 0 <= j <= n - 1 && Level(n - 1) == Left(j, n - 1);
          LeftStep(j, n);
          assert Level(n) == Left(j, n) || Level(n) == Left(n, n);
        } else {
          assert Level(n) == LeftFromStart(n) || Level(n) == Left(n, n);
        }
      }
    }

    /** The clock never runs backwards, and the rate is not negative. */
    ghost predicate Forward() {
      && rate >= 0.0
      && (forall i | 0 <= i < |times| :: start <= times[i])
      && forall i, j | 0 <= i <= j < |times| :: times[i] <= times[j]
    }

    /** With c grants in it already, the window from request j to request n has room for one more. */
    ghost predicate Room(c: int, j: nat, n: nat)
      requires j <= n < |times|
    {
      c as real + 1.0 <= burst + rate * (times[n] - times[j])
    }

    lemma RoomIff(c: int, j: nat, n: nat)
      requires j <= n < |times|
      ensures Room(c, j, n) <==> c as real + 1.0 <= burst + Earned(times[j], times[n])
    {
      EarnedIs(times[j], times[n]);
      hide Earned;
    }

    lemma RoomForFewer(c: int, d: int, j: nat, n: nat)
      requires j <= n < |times| && c <= d && Room(d, j, n)
      ensures Room(c, j, n)
    {
      hide Room, Earned;
      RoomIff(c, j, n);
      RoomIff(d, j, n);
    }

    /** The window from request j is too full to admit request n. */
    ghost predicate Full(j: nat, n: nat)
      requires j <= n < |times|
    {
      !Room(Grants(j, n), j, n)
    }

    lemma FullIff(j: nat, n: nat)
      requires j <= n < |times|
      ensures Full(j, n) <==> Left(j, n) < 1.0
    {
      hide Room, Earned;
      RoomIff(Grants(j, n), j, n);
    }

    lemma StartIsLooser(n: nat)
      requires n < |times| && Forward()
      ensures LeftFromStart(n) >= Left(0, n)
    {
      EarnedAdds(start, times[0], times[n]);
      EarnedGrows(start, times[0]);
    }

    /**
     * Exactness: request n is denied if and only if some window ending at n is already full:
     * the grants among j, ..., n-1 plus this one exceed burst + rate * (t_n - t_j).
     */
    lemma Exact(n: nat)
      requires n < |times| && Forward()
      ensures !Granted(n) <==> exists j | 0 <= j <= n :: Full(j, n)
    {
      LevelIsTightest(n);
      StartIsLooser(n);
      assert Granted(n) <==> Level(n) >= 1.0;
      hide Level, Left, LeftFromStart, Granted, Full;
      forall j | 0 <= j <= n { FullIff(j, n); }
      if Level(n) < 1.0 {
        if Level(n) == LeftFromStart(n) {
          assert Full(0, n);
        } else {
          var j :| 0 <= j <= n && Level(n) == Left(j, n);
          assert Full(j, n);
        }
      }
    }

    lemma {:induction false} GrantsSplit(i: nat, j: nat, n: nat)
      requires i <= j <= n <= |times|
      ensures Grants(i, n) == Grants(i, j) + Grants(j, n)
    {
      if j < n { GrantsSplit(i, j, n - 1); }
    }

    lemma {:induction false} EarnedBound(i: nat, n: nat)
      requires i <= n < |times| && Forward() && burst >= 0.0
      ensures Grants(i, n + 1) as real <= burst + Earned(times[i], times[n])
      decreases n
    {
      hide Earned, Granted, Room;
      EarnedGrows(times[i], times[n]);
      if Granted(n) {
        Exact(n);
        assert !Full(i, n);
        RoomIff(Grants(i, n), i, n);
      } else if i < n {
        EarnedBound(i, n - 1);
        EarnedAdds(times[i], times[n - 1], times[n]);
        EarnedGrows(times[n - 1], times[n]);
      }
    }

    /** Hence no window, from request i to request n, holds more than burst + rate * length grants. */
    lemma {:induction false} WindowBound(i: nat, n: nat)
      requires i <= n < |times| && Forward() && burst >= 0.0
      ensures Grants(i, n + 1) as real <= burst + rate * (times[n] - times[i])
    {
      hide Earned, Grants, Granted, Forward;
      EarnedBound(i, n);
      EarnedIs(times[i], times[n]);
    }
  }

  /** How many of the first n decisions are grants. */
  function Count(decisions: seq<bool>, n: nat): nat
    requires n <= |decisions|
  {
    if n == 0 then 0 else Count(decisions, n - 1) + if decisions[n - 1] then 1 else 0
  }

  /** A schedule that never grants a request into a full window. */
  ghost predicate Admissible(s: Session, decisions: seq<bool>) {
    && |decisions| == |s.times|
    && forall j, n | 0 <= j <= n < |decisions| && decisions[n] ::
         s.Room(Count(decisions, n) - Count(decisions, j), j, n)
  }

  function Decisions(s: Session): seq<bool> {
    seq(|s.times|, i requires 0 <= i < |s.times| => s.Granted(i))
  }

  lemma {:induction false} CountIsGrants(s: Session, n: nat)
    requires n <= |s.times|
    ensures Count(Decisions(s), n) == s.Grants(0, n)
  {
    if n > 0 { CountIsGrants(s, n - 1); }
  }

  /** The limiter's own decisions are admissible. */
  lemma GreedyAdmissible(s: Session)
    requires s.Forward()
    ensures Admissible(s, Decisions(s))
  {
    hide Session.Room, Session.Granted;
    var d := Decisions(s);
    forall j, n | 0 <= j <= n < |d| && d[n]
      ensures s.Room(Count(d, n) - Count(d, j), j, n)
    {
      CountIsGrants(s, n);
      CountIsGrants(s, j);
      s.GrantsSplit(0, j, n);
      s.Exact(n);
      assert !s.Full(j, n);
    }
  }

  /** Greedy is optimal: no admissible schedule has granted more at any point of the run. */
  lemma {:induction false} Optimal(s: Session, decisions: seq<bool>, n: nat)
    requires s.Forward() && Admissible(s, decisions) && n <= |decisions|
    ensures forall i | 0 <= i <= n :: Count(decisions, i) <= s.Grants(0, i)
  {
    hide Session.Room, Session.Granted;
    if n > 0 {
      Optimal(s, decisions, n - 1);
      if decisions[n - 1] && !s.Granted(n - 1) {
        s.Exact(n - 1);
        var j :| 0 <= j <= n - 1 && s.Full(j, n - 1);
        s.GrantsSplit(0, j, n - 1);
        var c, g := Count(decisions, n - 1) - Count(decisions, j), s.Grants(j, n - 1);
        assert s.Room(c, j, n - 1);
        assert c < g by { if c >= g { s.RoomForFewer(g, c, j, n - 1); } }
        assert Count(decisions, j) <= s.Grants(0, j);
      }
    }
  }
}
