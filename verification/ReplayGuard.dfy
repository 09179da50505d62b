/** Replay protection for API-key requests (internal/grpc/auth.go). Times are in nanoseconds. */
module ReplayGuard {
  import opened Bytes
  import opened Decimal

  const SECOND := 1_000_000_000
  const MAX_REQUEST_AGE := 300 * SECOND
  const MAX_TIMESTAMP_MAP_SIZE := 100000

  datatype Request = Request(apiKey: string, timestamp: i64)

  datatype Verdict = MissingKey | InvalidKey | TooOld | Replay | InvalidSignature | Accepted

  /** fmt.Sprintf("%s:%d") */
  function ReplayKey(r: Request): string { r.apiKey + ":" + Print(r.timestamp) }

  /** strings.LastIndex(s, ":") */
  function LastColon(s: string): (i: int)
    ensures -1 <= i < |s|
  {
    if s == [] then -1
    else if s[|s| - 1] == ':' then |s| - 1
    else LastColon(s[..|s| - 1])
  }

  /** The timestamp cleanup reads back from a stored key. */
  function KeyTimestamp(key: string): Option<i64> {
    var i := LastColon(key);
    if i == -1 then None else ScanInt(key[i + 1..])
  }

  function Expired(timestamp: int, now: int): bool { now - timestamp * SECOND > MAX_REQUEST_AGE }

  /** now.Add(-maxRequestAge).Unix(): whole seconds, rounded down. */
  function Cutoff(now: int): int { (now - MAX_REQUEST_AGE) / SECOND }

  lemma {:induction false} LastColonAt(a: string, b: string)
    requires ':' !in b
    ensures LastColon(a + ":" + b) == |a|
    decreases |b|
  {
    var s := a + ":" + b;
    if b == [] {
      assert s[|s| - 1] == ':';
    } else {
      assert s[|s| - 1] == b[|b| - 1];
      assert s[..|s| - 1] == a + ":" + b[..|b| - 1];
      LastColonAt(a, b[..|b| - 1]);
    }
  }

  lemma PrintHasNoColon(n: i64)
    ensures ':' !in Print(n)
  {
    var m: int := n;
    DigitsValue(if m < 0 then 0 - m else m);
  }

  /** The timestamp is recovered exactly, even when the API key itself contains colons. */
  lemma TimestampRecovered(r: Request)
    ensures KeyTimestamp(ReplayKey(r)) == Some(r.timestamp)
  {
    PrintHasNoColon(r.timestamp);
    LastColonAt(r.apiKey, Print(r.timestamp));
    assert ReplayKey(r)[|r.apiKey| + 1..] == Print(r.timestamp);
    ScanPrint(r.timestamp);
  }

  /** Different requests have different keys. */
  lemma ReplayKeyInjective(r: Request, s: Request)
    requires ReplayKey(r) == ReplayKey(s)
    ensures r == s
  {
    PrintHasNoColon(r.timestamp);
    PrintHasNoColon(s.timestamp);
    LastColonAt(r.apiKey, Print(r.timestamp));
    LastColonAt(s.apiKey, Print(s.timestamp));
    assert r.apiKey == ReplayKey(r)[..|r.apiKey|] && s.apiKey == ReplayKey(s)[..|s.apiKey|];
    TimestampRecovered(r);
    TimestampRecovered(s);
  }

  // ---- validation and cleanup ----

  function Validated(secrets: map<string, string>, seen: set<string>, now: int, r: Request, signatureOk: bool)
    : (set<string>, Verdict)
  {
    if r.apiKey == "" then (seen, MissingKey)
    else if r.apiKey !in secrets || secrets[r.apiKey] == "" then (seen, InvalidKey)
    else if Expired(r.timestamp, now) then (seen, TooOld)
    else if ReplayKey(r) in seen then (seen, Replay)
    else (seen + {ReplayKey(r)}, if signatureOk then Accepted else InvalidSignature)
  }

  /**
   * A request is accepted exactly when its key is known, it is at most 300 seconds old (in nanoseconds), its
   * replay key is new and its signature right; and the key is stored whenever the first three hold.
   */
  lemma AcceptedIff(secrets: map<string, string>, seen: set<string>, now: int, r: Request, signatureOk: bool)
    ensures var (after, verdict) := Validated(secrets, seen, now, r, signatureOk);
            var stored :=
              && r.apiKey != "" && r.apiKey in secrets && secrets[r.apiKey] != ""
              && now - r.timestamp * 1_000_000_000 <= 300_000_000_000 && ReplayKey(r) !in seen;
            && (verdict == Accepted <==> stored && signatureOk)
            && (verdict == InvalidSignature <==> stored && !signatureOk)
            && after == (if stored then seen + {ReplayKey(r)} else seen)
            && (verdict == Replay ==> ReplayKey(r) in seen)
            && (verdict == TooOld ==> now - r.timestamp * 1_000_000_000 > 300_000_000_000)
  {
    hide ReplayKey;
  }

  /** Keys whose timestamp lies before the cutoff. */
  function Outdated(seen: set<string>, now: int): set<string> {
    set key | key in seen && KeyTimestamp(key).Some? && KeyTimestamp(key).value < Cutoff(now)
  }

  /** Keys with a readable timestamp. */
  function Dated(seen: set<string>): set<string> {
    set key | key in seen && KeyTimestamp(key).Some?
  }

  predicate NotNewer(key: string, other: string) {
    KeyTimestamp(key).Some? && KeyTimestamp(other).Some? && KeyTimestamp(key).value <= KeyTimestamp(other).value
  }

  /** The older half, by timestamp, of the dated keys; ties may fall either way. */
  ghost predicate OlderHalf(keys: set<string>, evicted: set<string>) {
    && evicted <= Dated(keys) && |evicted| == |Dated(keys)| / 2
    && forall key, other | key in evicted && other in Dated(keys) - evicted :: NotNewer(key, other)
  }

  /** cleanupOldTimestamps: age pass, then the size limit on the number found at the start. */
  ghost predicate CleanedUp(seen: set<string>, now: int, seen': set<string>) {
    var recent := seen - Outdated(seen, now);
    if |seen| > MAX_TIMESTAMP_MAP_SIZE then seen' <= recent && OlderHalf(recent, recent - seen') else seen' == recent
  }

  /** A clean-up of at most 100000 keys deletes the key of a request exactly when it is older than 300 whole seconds. */
  lemma AgePassExact(seen: set<string>, now: int, seen': set<string>, r: Request)
    requires CleanedUp(seen, now, seen') && |seen| <= 100_000 && ReplayKey(r) in seen
    ensures ReplayKey(r) in seen' <==> r.timestamp >= (now - 300_000_000_000) / 1_000_000_000
  {
    hide ReplayKey, KeyTimestamp;
    TimestampRecovered(r);
  }

  lemma CutoffExpires(timestamp: int, now: int)
    requires timestamp < Cutoff(now)
    ensures Expired(timestamp, now)
  {}

  lemma OlderOf(k: string, o: string) returns (least: string)
    requires KeyTimestamp(k).Some? && KeyTimestamp(o).Some?
    ensures (least == k || least == o) && NotNewer(least, k) && NotNewer(least, o)
    ensures forall other | NotNewer(o, other) :: NotNewer(least, other)
  {
    hide KeyTimestamp;
    least := if NotNewer(k, o) then k else o;
  }

  lemma {:induction false} HasOldest(keys: set<string>)
    requires keys != {} && forall key | key in keys :: KeyTimestamp(key).Some?
    ensures exists key :: key in keys && forall other | other in keys :: NotNewer(key, other)
    decreases |keys|
  {
    hide KeyTimestamp, NotNewer;
    var k :| k in keys;
    var rest := keys - {k};
    var least := OlderOf(k, k);
    if rest != {} {
      HasOldest(rest);
      var o :| o in rest && forall other | other in rest :: NotNewer(o, other);
      least := OlderOf(k, o);
    }
    assert least in keys;
    forall other | other in keys ensures NotNewer(least, other) {
      assert other == k || other in rest;
    }
  }

  lemma DatedKeys(seen: set<string>)
    ensures Dated(seen) <= seen && forall key | key in Dated(seen) :: KeyTimestamp(key).Some?
  {}

  /** Moving the oldest remaining key to the removed ones keeps the two parts in order. */
  lemma Moved(all: set<string>, removed: set<string>, left: set<string>, key: string)
    requires removed !! left && removed + left == all && key in left
    requires forall key, other | key in removed && other in left :: NotNewer(key, other)
    requires forall other | other in left :: NotNewer(key, other)
    ensures (removed + {key}) !! (left - {key}) && removed + {key} + (left - {key}) == all
    ensures |removed + {key}| == |removed| + 1 && |left - {key}| == |left| - 1
    ensures forall k, other | k in removed + {key} && other in left - {key} :: NotNewer(k, other)
  {
    hide NotNewer;
  }

  class AuthInterceptor {
    const secrets: map<string, string>
    var seenRequests: set<string>
    var timestampCount: int

    constructor (secrets: map<string, string>)
      ensures this.secrets == secrets && seenRequests == {} && timestampCount == 0
    {
      this.secrets, seenRequests, timestampCount := secrets, {}, 0;
    }

    /** The signature check is foreign cryptography: its outcome is a parameter. */
    method ValidateAPIKeyAuth(now: int, auth: Request, signatureOk: bool) returns (verdict: Verdict)
      modifies this
      ensures (seenRequests, verdict) == Validated(secrets, old(seenRequests), now, auth, signatureOk)
      ensures timestampCount == old(timestampCount) + |seenRequests| - |old(seenRequests)|
    {
      if auth.apiKey == "" {
        return MissingKey;
      }
      if auth.apiKey !in secrets || secrets[auth.apiKey] == "" {
        return InvalidKey;
      }
      if now - auth.timestamp * SECOND > MAX_REQUEST_AGE {
        return TooOld;
      }
      var replayKey := ReplayKey(auth);
      if replayKey in seenRequests {
        return Replay;
      }
      seenRequests := seenRequests + {replayKey};
      timestampCount := timestampCount + 1;
      if !signatureOk {
        return InvalidSignature;
      }
      return Accepted;
    }

    /** The counter keeps the number of entries found, minus those evicted for size. */
    method CleanupOldTimestamps(now: int)
      modifies this
      ensures CleanedUp(old(seenRequests), now, seenRequests)
      ensures timestampCount == |old(seenRequests)|
                - if |old(seenRequests)| > MAX_TIMESTAMP_MAP_SIZE
                  then |Dated(old(seenRequests) - Outdated(old(seenRequests), now))| / 2 else 0
    {
      hide KeyTimestamp;
      var cutoff := Cutoff(now);
      var oldEntries: set<string> := {};
      var totalCount := 0;
      var pending := seenRequests;
      while pending != {}
        invariant seenRequests == old(seenRequests) && pending <= seenRequests
        invariant totalCount == |seenRequests| - |pending|
        invariant oldEntries == Outdated(seenRequests - pending, now)
        decreases |pending|
      {
        var key :| key in pending;
        totalCount := totalCount + 1;
        var timestamp := KeyTimestamp(key);
        if timestamp.Some? && timestamp.value < cutoff {
          oldEntries := oldEntries + {key};
        }
        assert seenRequests - (pending - {key}) == (seenRequests - pending) + {key};
        pending := pending - {key};
      }
      timestampCount := totalCount;
      assert seenRequests - {} == seenRequests;
      seenRequests := seenRequests - oldEntries;
      if totalCount > MAX_TIMESTAMP_MAP_SIZE {
        var evicted := EvictOldest();
        timestampCount := totalCount - evicted;
      }
    }

    /** Deletes the older half of the dated entries, oldest first. */
    method EvictOldest() returns (removeCount: nat)
      modifies this`seenRequests
      ensures seenRequests <= old(seenRequests)
      ensures OlderHalf(old(seenRequests), old(seenRequests) - seenRequests)
      ensures removeCount == |Dated(old(seenRequests))| / 2
    {
      hide KeyTimestamp, NotNewer, Dated;
      ghost var keys := seenRequests;
      var all := Dated(seenRequests);
      DatedKeys(seenRequests);
      removeCount := |all| / 2;
      var left := all;
      var removed: set<string> := {};
      for i := 0 to removeCount
        invariant removed !! left && removed + left == all == Dated(keys) && |removed| == i && |left| == |all| - i
        invariant forall key, other | key in removed && other in left :: NotNewer(key, other)
        invariant seenRequests == keys - removed
      {
        assert forall key | key in left :: key in all;
        HasOldest(left);
        var key :| key in left && forall other | other in left :: NotNewer(key, other);
        Moved(all, removed, left, key);
        left := left - {key};
        removed := removed + {key};
        seenRequests := seenRequests - {key};
      }
      assert keys - seenRequests == removed && all - removed == left;
    }
  }

  // ---- whole runs ----

  datatype Step = Validate(now: int, request: Request, signatureOk: bool) | Cleanup(now: int, after: set<string>)

  datatype State = State(seen: set<string>, accepted: seq<Request>, clock: int)

  function Next(secrets: map<string, string>, s: State, step: Step): State {
    match step
    case Validate(now, r, signatureOk) =>
      var (seen, verdict) := Validated(secrets, s.seen, now, r, signatureOk);
      State(seen, if verdict == Accepted then s.accepted + [r] else s.accepted, now)
    case Cleanup(now, after) => State(after, s.accepted, now)
  }

  function Run(secrets: map<string, string>, start: int, steps: seq<Step>): State {
    if steps == [] then State({}, [], start)
    else Next(secrets, Run(secrets, start, steps[..|steps| - 1]), steps[|steps| - 1])
  }

  /** The clock does not run backwards and every cleanup does what the code does. */
  ghost predicate Legal(s: State, step: Step) {
    step.now >= s.clock && (step.Cleanup? ==> CleanedUp(s.seen, step.now, step.after))
  }

  ghost predicate LegalRun(secrets: map<string, string>, start: int, steps: seq<Step>) {
    forall i | 0 <= i < |steps| :: Legal(Run(secrets, start, steps[..i]), steps[i])
  }

  lemma RunSnoc(secrets: map<string, string>, start: int, steps: seq<Step>, step: Step)
    requires LegalRun(secrets, start, steps) && Legal(Run(secrets, start, steps), step)
    ensures LegalRun(secrets, start, steps + [step])
    ensures Run(secrets, start, steps + [step]) == Next(secrets, Run(secrets, start, steps), step)
  {
    hide Legal, Next;
    var all, n := steps + [step], |steps|;
    assert all[..n] == steps;
    forall i | 0 <= i < n + 1 ensures Legal(Run(secrets, start, all[..i]), all[i]) {
      if i < n { assert all[..i] == steps[..i]; }
    }
  }

  /** No cleanup starts with more than the maximal number of entries. */
  ghost predicate WithinLimit(secrets: map<string, string>, start: int, steps: seq<Step>) {
    forall i | 0 <= i < |steps| && steps[i].Cleanup? ::
      |Run(secrets, start, steps[..i]).seen| <= MAX_TIMESTAMP_MAP_SIZE
  }

  ghost predicate AcceptedOnce(accepted: seq<Request>) {
    forall i, j | 0 <= i < j < |accepted| :: accepted[i] != accepted[j]
  }

  /** Nothing accepted is forgotten while it could be accepted again. */
  ghost predicate Remembers(s: State) {
    AcceptedOnce(s.accepted) && forall r | r in s.accepted :: ReplayKey(r) in s.seen || Expired(r.timestamp, s.clock)
  }

  lemma NextRemembers(secrets: map<string, string>, s: State, step: Step)
    requires Remembers(s) && Legal(s, step)
    requires step.Cleanup? ==> |s.seen| <= MAX_TIMESTAMP_MAP_SIZE
    ensures Remembers(Next(secrets, s, step))
  {
    if step.Cleanup? {
      forall r | r in s.accepted ensures ReplayKey(r) in step.after || Expired(r.timestamp, step.now) {
        TimestampRecovered(r);
        if r.timestamp < Cutoff(step.now) { CutoffExpires(r.timestamp, step.now); }
      }
    }
  }

  /** In every run whose cleanups stay within the size limit, no request is accepted twice. */
  lemma {:induction false} AtMostOnce(secrets: map<string, string>, start: int, steps: seq<Step>)
    requires LegalRun(secrets, start, steps) && WithinLimit(secrets, start, steps)
    ensures Remembers(Run(secrets, start, steps))
  {
    if steps != [] {
      var n := |steps| - 1;
      forall i | 0 <= i < n ensures steps[..n][..i] == steps[..i] {}
      AtMostOnce(secrets, start, steps[..n]);
      NextRemembers(secrets, Run(secrets, start, steps[..n]), steps[n]);
    }
  }

  /** A cleanup deletes some key that is not outdated. */
  ghost predicate ForgetsFresh(seen: set<string>, now: int, seen': set<string>) {
    exists key :: key in seen && key !in seen' && key !in Outdated(seen, now)
  }

  /** The size limit is exactly what makes a cleanup forget keys that are not outdated. */
  lemma ForgetsFreshIff(seen: set<string>, now: int, seen': set<string>)
    requires CleanedUp(seen, now, seen')
    ensures ForgetsFresh(seen, now, seen') <==>
            |seen| > MAX_TIMESTAMP_MAP_SIZE && |Dated(seen - Outdated(seen, now))| >= 2
  {
    var recent := seen - Outdated(seen, now);
    if ForgetsFresh(seen, now, seen') {
      var key :| key in seen && key !in seen' && key !in Outdated(seen, now);
      assert key in recent - seen';
    } else {
      assert recent - seen' == {};
    }
  }

  /** A stored key whose request would still pass the age test. */
  predicate Acceptable(key: string, now: int) {
    KeyTimestamp(key).Some? && !Expired(KeyTimestamp(key).value, now)
  }

  /** A cleanup deletes some key whose request is still acceptable. */
  ghost predicate ForgetsAcceptable(seen: set<string>, now: int, seen': set<string>) {
    exists key :: key in seen && key !in seen' && Acceptable(key, now)
  }

  /** The dated keys the age pass leaves behind although they have expired. */
  function Lingering(seen: set<string>, now: int): set<string> {
    set key | key in Dated(seen - Outdated(seen, now)) && !Acceptable(key, now)
  }

  lemma OlderExpires(key: string, other: string, now: int)
    requires NotNewer(key, other) && Acceptable(key, now)
    ensures Acceptable(other, now)
  {
    hide KeyTimestamp;
  }

  /** Of an older half, some key is acceptable exactly when there are fewer expired ones than places. */
  lemma HalfReaches(dated: set<string>, expired: set<string>, evicted: set<string>, now: int)
    requires evicted <= dated && expired == (set key | key in dated && !Acceptable(key, now))
    requires forall key, other | key in evicted && other in dated - evicted :: NotNewer(key, other)
    ensures (exists key :: key in evicted && Acceptable(key, now)) <==> |evicted| > |expired|
  {
    hide Acceptable, NotNewer;
    if key :| key in evicted && Acceptable(key, now) {
      forall other | other in expired ensures other in evicted {
        if other !in evicted { OlderExpires(key, other, now); }
      }
      Strictly(expired, evicted, key);
    } else {
      assert evicted <= expired;
      Fewer(evicted, expired);
    }
  }

  lemma Fewer(a: set<string>, b: set<string>)
    requires a <= b
    ensures |a| <= |b|
  {
    assert b == a + (b - a);
  }

  lemma Strictly(a: set<string>, b: set<string>, x: string)
    requires a <= b && x in b && x !in a
    ensures |a| < |b|
  {
    Fewer(a + {x}, b);
  }

  /**
   * A cleanup forgets a key whose request is still acceptable exactly when it starts above the size
   * limit and the half it evicts has more places than there are expired keys to fill them.
   */
  lemma ForgetsAcceptableIff(seen: set<string>, now: int, seen': set<string>)
    requires CleanedUp(seen, now, seen')
    ensures ForgetsAcceptable(seen, now, seen') <==>
            && |seen| > MAX_TIMESTAMP_MAP_SIZE
            && |Dated(seen - Outdated(seen, now))| / 2 > |Lingering(seen, now)|
  {
    var recent := seen - Outdated(seen, now);
    var evicted := recent - seen';
    OutdatedExpired(seen, now);
    hide KeyTimestamp, Acceptable, Outdated, Dated, NotNewer;
    assert forall key | key in seen && key !in seen' && Acceptable(key, now) :: key in evicted;
    if |seen| > MAX_TIMESTAMP_MAP_SIZE {
      HalfReaches(Dated(recent), Lingering(seen, now), evicted, now);
    }
  }

  lemma OutdatedExpired(seen: set<string>, now: int)
    ensures forall key | key in Outdated(seen, now) :: !Acceptable(key, now)
  {
    hide KeyTimestamp;
    forall key | key in Outdated(seen, now) ensures !Acceptable(key, now) {
      CutoffExpires(KeyTimestamp(key).value, now);
    }
  }

  /** Validating r next, at some time from now on, accepts it although it has been accepted before. */
  ghost predicate AcceptsAgain(secrets: map<string, string>, s: State, now: int, r: Request) {
    now >= s.clock && r in s.accepted && Validated(secrets, s.seen, now, r, true).1 == Accepted
  }

  predicate Keyed(secrets: map<string, string>, r: Request) {
    r.apiKey != "" && r.apiKey in secrets && secrets[r.apiKey] != ""
  }

  lemma {:induction false} AcceptedKeyed(secrets: map<string, string>, start: int, steps: seq<Step>)
    ensures forall r | r in Run(secrets, start, steps).accepted :: Keyed(secrets, r)
  {
    hide ReplayKey, Expired;
    if steps != [] { AcceptedKeyed(secrets, start, steps[..|steps| - 1]); }
  }

  /**
   * After any run, within the limit or not, some validation accepts a request a second time exactly
   * when the key of an accepted request that has not expired is missing.
   */
  lemma AcceptsAgainIff(secrets: map<string, string>, start: int, steps: seq<Step>)
    ensures var s := Run(secrets, start, steps);
            (exists now, r :: AcceptsAgain(secrets, s, now, r)) <==>
            (exists r :: r in s.accepted && !Expired(r.timestamp, s.clock) && ReplayKey(r) !in s.seen)
  {
    hide ReplayKey, Run;
    AcceptedKeyed(secrets, start, steps);
    var s := Run(secrets, start, steps);
    if r :| r in s.accepted && !Expired(r.timestamp, s.clock) && ReplayKey(r) !in s.seen {
      assert AcceptsAgain(secrets, s, s.clock, r);
    }
  }

  // ---- beyond the limit the property fails ----

  function Sample(i: nat): Request
    requires i < 0x8000_0000
  {
    Request("k", i)
  }

  function SampleKeys(n: nat): set<string>
    requires n <= 0x8000_0000
  {
    if n == 0 then {} else SampleKeys(n - 1) + {ReplayKey(Sample(n - 1))}
  }

  function SampleSteps(n: nat): seq<Step>
    requires n <= 0x8000_0000
  {
    if n == 0 then [] else SampleSteps(n - 1) + [Validate(0, Sample(n - 1), true)]
  }

  lemma {:induction false} SampleKeyIff(n: nat, i: nat)
    requires n <= 0x8000_0000 && i < 0x8000_0000
    ensures ReplayKey(Sample(i)) in SampleKeys(n) <==> i < n
  {
    hide ReplayKey;
    if n > 0 {
      SampleKeyIff(n - 1, i);
      if ReplayKey(Sample(i)) == ReplayKey(Sample(n - 1)) { ReplayKeyInjective(Sample(i), Sample(n - 1)); }
    }
  }

  lemma {:induction false} SampleKeyOf(n: nat, key: string) returns (i: nat)
    requires n <= 0x8000_0000 && key in SampleKeys(n)
    ensures i < n && key == ReplayKey(Sample(i)) && KeyTimestamp(key) == Some(i)
  {
    hide ReplayKey;
    if key == ReplayKey(Sample(n - 1)) {
      i := n - 1;
      TimestampRecovered(Sample(i));
    } else {
      i := SampleKeyOf(n - 1, key);
    }
  }

  lemma {:induction false} SampleKeyCount(n: nat)
    requires n <= 0x8000_0000
    ensures |SampleKeys(n)| == n
  {
    if n > 0 {
      SampleKeyCount(n - 1);
      SampleKeyIff(n - 1, n - 1);
    }
  }

  const SECRETS := map["k" := "s"]

  lemma SampleAccepted(s: State, i: nat)
    requires i < 0x8000_0000 && s.clock == 0 && ReplayKey(Sample(i)) !in s.seen
    ensures Next(SECRETS, s, Validate(0, Sample(i), true))
            == State(s.seen + {ReplayKey(Sample(i))}, s.accepted + [Sample(i)], 0)
  {
    hide ReplayKey;
  }

  lemma {:induction false} SampleRun(n: nat)
    requires n <= 0x8000_0000
    ensures |SampleSteps(n)| == n && LegalRun(SECRETS, 0, SampleSteps(n))
    ensures var s := Run(SECRETS, 0, SampleSteps(n));
            s.seen == SampleKeys(n) && s.clock == 0 && |s.accepted| == n && (n > 0 ==> s.accepted[0] == Sample(0))
  {
    hide ReplayKey;
    if n > 0 {
      hide Run, LegalRun, Next;
      SampleRun(n - 1);
      SampleKeyIff(n - 1, n - 1);
      SampleAccepted(Run(SECRETS, 0, SampleSteps(n - 1)), n - 1);
      RunSnoc(SECRETS, 0, SampleSteps(n - 1), Validate(0, Sample(n - 1), true));
    }
  }

  lemma {:induction false} SampleValidates(n: nat)
    requires n <= 0x8000_0000
    ensures forall i | 0 <= i < |SampleSteps(n)| :: SampleSteps(n)[i].Validate?
  {
    if n > 0 { SampleValidates(n - 1); }
  }

  /** Evicting the keys of the older half of the samples is what a cleanup may do. */
  lemma SampleCleanup(n: nat)
    requires MAX_TIMESTAMP_MAP_SIZE < n <= 0x8000_0000
    ensures CleanedUp(SampleKeys(n), 0, SampleKeys(n) - SampleKeys(n / 2))
  {
    hide KeyTimestamp, ReplayKey;
    var all, half := SampleKeys(n), SampleKeys(n / 2);
    SampleKeyCount(n);
    SampleKeyCount(n / 2);
    forall key | key in all ensures KeyTimestamp(key).Some? && KeyTimestamp(key).value >= 0 {
      var i := SampleKeyOf(n, key);
    }
    assert Outdated(all, 0) == {} && Dated(all) == all;
    forall key | key in half ensures key in all {
      var i := SampleKeyOf(n / 2, key);
      SampleKeyIff(n, i);
    }
    assert all - (all - half) == half && all - {} == all;
    forall key, other | key in half && other in all - half ensures NotNewer(key, other) {
      var i := SampleKeyOf(n / 2, key);
      var j := SampleKeyOf(n, other);
      SampleKeyIff(n / 2, j);
    }
  }

  /** For every number of entries above the limit, one cleanup of that many lets a run accept a request twice. */
  lemma ReplayedBeyondLimit(n: nat) returns (steps: seq<Step>)
    requires MAX_TIMESTAMP_MAP_SIZE < n <= 0x8000_0000
    ensures LegalRun(SECRETS, 0, steps) && !AcceptedOnce(Run(SECRETS, 0, steps).accepted)
    ensures |steps| == n + 2 && steps[n].Cleanup? && |Run(SECRETS, 0, steps[..n]).seen| == n
    ensures forall i | 0 <= i < |steps| && steps[i].Cleanup? :: i == n
  {
    hide ReplayKey, CleanedUp, SampleKeys, Run, LegalRun, SampleSteps;
    SampleRun(n);
    SampleKeyCount(n);
    SampleValidates(n);
    SampleCleanup(n);
    SampleKeyIff(n / 2, 0);
    var cleanup := Cleanup(0, SampleKeys(n) - SampleKeys(n / 2));
    RunSnoc(SECRETS, 0, SampleSteps(n), cleanup);
    steps := SampleSteps(n) + [cleanup];
    RunSnoc(SECRETS, 0, steps, Validate(0, Sample(0), true));
    steps := steps + [Validate(0, Sample(0), true)];
    var s := Run(SECRETS, 0, steps);
    assert s.accepted[n] == Sample(0) && s.accepted[0] == Sample(0);
    assert steps[..n] == SampleSteps(n);
  }
}
