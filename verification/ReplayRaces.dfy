/**
 * Replay protection with validations that overlap cleanups (internal/grpc/auth.go): the age test
 * of a request and the insertion of its key are two steps, and anything may happen in between.
 */
module ReplayRaces {
  import opened Bytes
  import opened ReplayGuard

  /** `waiting` holds the requests that have passed the age test and are about to store their key. */
  datatype Race = Race(seen: set<string>, waiting: multiset<Request>, accepted: seq<Request>, clock: int)

  datatype RaceStep =
    | Check(now: int, request: Request)
    | Store(now: int, request: Request, signatureOk: bool)
    | Sweep(now: int, after: set<string>)

  ghost predicate LegalStep(s: Race, step: RaceStep) {
    && step.now >= s.clock
    && (step.Store? ==> step.request in s.waiting)
    && (step.Sweep? ==> CleanedUp(s.seen, step.now, step.after))
  }

  function Advance(secrets: map<string, string>, s: Race, step: RaceStep): Race {
    match step
    case Check(now, r) =>
      s.(clock := now,
         waiting := if Keyed(secrets, r) && !Expired(r.timestamp, now) then s.waiting + multiset{r} else s.waiting)
    case Store(now, r, signatureOk) =>
      var t := s.(clock := now, waiting := s.waiting - multiset{r});
      if ReplayKey(r) in s.seen then t
      else t.(seen := s.seen + {ReplayKey(r)}, accepted := if signatureOk then s.accepted + [r] else s.accepted)
    case Sweep(now, after) => s.(clock := now, seen := after)
  }

  /** A validation no other step interrupts is the atomic one. */
  lemma Uninterrupted(secrets: map<string, string>, s: Race, now: int, r: Request, signatureOk: bool)
    ensures var (seen, verdict) := Validated(secrets, s.seen, now, r, signatureOk);
            var t := Advance(secrets, s, Check(now, r));
            if verdict.MissingKey? || verdict.InvalidKey? || verdict.TooOld? then t == s.(clock := now)
            else
              && r in t.waiting
              && Advance(secrets, t, Store(now, r, signatureOk))
                 == s.(clock := now, seen := seen, accepted := if verdict == Accepted then s.accepted + [r] else s.accepted)
  {
    hide ReplayKey, Expired;
    var t := Advance(secrets, s, Check(now, r));
    if Keyed(secrets, r) && !Expired(r.timestamp, now) {
      assert t.waiting - multiset{r} == s.waiting;
    }
  }

  ghost predicate LegalRace(secrets: map<string, string>, start: int, steps: seq<RaceStep>) {
    steps != [] ==>
      && LegalRace(secrets, start, steps[..|steps| - 1])
      && LegalStep(RunRace(secrets, start, steps[..|steps| - 1]), steps[|steps| - 1])
  }

  function RunRace(secrets: map<string, string>, start: int, steps: seq<RaceStep>): Race {
    if steps == [] then Race({}, multiset{}, [], start)
    else Advance(secrets, RunRace(secrets, start, steps[..|steps| - 1]), steps[|steps| - 1])
  }

  /** An accepted request whose key is gone has expired and is not waiting to store it again. */
  ghost predicate Guarded(s: Race) {
    && AcceptedOnce(s.accepted)
    && forall r | r in s.accepted :: ReplayKey(r) in s.seen || (Expired(r.timestamp, s.clock) && r !in s.waiting)
  }

  /** No accepted request is waiting to store a key that a sweep now would delete for its age. */
  ghost predicate NoneOverdue(s: Race, now: int) {
    forall r | r in s.accepted && r in s.waiting :: r.timestamp >= Cutoff(now)
  }

  lemma AdvanceGuarded(secrets: map<string, string>, s: Race, step: RaceStep)
    requires Guarded(s) && LegalStep(s, step) && !step.Sweep?
    ensures Guarded(Advance(secrets, s, step))
  {
    hide ReplayKey;
    if step.Store? {
      forall r | r in s.accepted && r != step.request ensures ReplayKey(r) != ReplayKey(step.request) {
        if ReplayKey(r) == ReplayKey(step.request) { ReplayKeyInjective(r, step.request); }
      }
    }
  }

  /** Within the size limit, a sweep keeps the guard exactly when no accepted request waits overdue. */
  lemma SweepExact(secrets: map<string, string>, s: Race, step: RaceStep)
    requires Guarded(s) && LegalStep(s, step) && step.Sweep? && |s.seen| <= MAX_TIMESTAMP_MAP_SIZE
    ensures Guarded(Advance(secrets, s, step)) <==> NoneOverdue(s, step.now)
  {
    hide ReplayKey, KeyTimestamp, Cutoff, Expired;
    forall r | r in s.accepted
      ensures ReplayKey(r) in step.after <==> ReplayKey(r) in s.seen && r.timestamp >= Cutoff(step.now)
      ensures r.timestamp < Cutoff(step.now) ==> Expired(r.timestamp, step.now)
      ensures Expired(r.timestamp, s.clock) ==> Expired(r.timestamp, step.now)
    {
      TimestampRecovered(r);
      if r.timestamp < Cutoff(step.now) { CutoffExpires(r.timestamp, step.now); }
      LaterExpires(r.timestamp, s.clock, step.now);
    }
  }

  lemma LaterExpires(timestamp: int, clock: int, now: int)
    requires clock <= now
    ensures Expired(timestamp, clock) ==> Expired(timestamp, now)
  {}

  /** Every sweep starts within the size limit and with no accepted request waiting overdue. */
  ghost predicate Calm(secrets: map<string, string>, start: int, steps: seq<RaceStep>) {
    steps != [] ==>
      var s, step := RunRace(secrets, start, steps[..|steps| - 1]), steps[|steps| - 1];
      && Calm(secrets, start, steps[..|steps| - 1])
      && (step.Sweep? ==> |s.seen| <= MAX_TIMESTAMP_MAP_SIZE && NoneOverdue(s, step.now))
  }

  /** So in every such run, however validations overlap, no request is accepted twice. */
  lemma {:induction false} OverlappingAtMostOnce(secrets: map<string, string>, start: int, steps: seq<RaceStep>)
    requires LegalRace(secrets, start, steps) && Calm(secrets, start, steps)
    ensures Guarded(RunRace(secrets, start, steps))
  {
    hide LegalStep, Advance, NoneOverdue;
    if steps != [] {
      hide Guarded;
      var s, step := RunRace(secrets, start, steps[..|steps| - 1]), steps[|steps| - 1];
      OverlappingAtMostOnce(secrets, start, steps[..|steps| - 1]);
      if step.Sweep? { SweepExact(secrets, s, step); } else { AdvanceGuarded(secrets, s, step); }
    }
  }

  /** The next store accepts a request for the second time. */
  ghost predicate StoresAgain(secrets: map<string, string>, s: Race, r: Request) {
    r in s.waiting && r in s.accepted && Advance(secrets, s, Store(s.clock, r, true)).accepted == s.accepted + [r]
  }

  /** And an overdue one is: the request it concerns can be accepted again at once. */
  lemma OverdueIsAcceptedAgain(secrets: map<string, string>, s: Race, step: RaceStep)
    requires Guarded(s) && LegalStep(s, step) && step.Sweep? && |s.seen| <= MAX_TIMESTAMP_MAP_SIZE
    ensures !NoneOverdue(s, step.now) <==> exists r :: StoresAgain(secrets, Advance(secrets, s, step), r)
  {
    hide ReplayKey, KeyTimestamp, Cutoff;
    var t := Advance(secrets, s, step);
    forall r | r in s.accepted
      ensures StoresAgain(secrets, t, r) <==> r in s.waiting && ReplayKey(r) !in step.after
    {
      assert s.accepted != s.accepted + [r] by { assert |s.accepted + [r]| == |s.accepted| + 1; }
    }
    forall r | r in s.accepted && r in s.waiting
      ensures ReplayKey(r) in step.after <==> r.timestamp >= Cutoff(step.now)
    {
      TimestampRecovered(r);
    }
    if r :| r in s.accepted && r in s.waiting && r.timestamp < Cutoff(step.now) {
      assert StoresAgain(secrets, t, r);
    }
  }

  lemma Nothing() returns (s: Race)
    ensures LegalRace(SECRETS, 0, []) && RunRace(SECRETS, 0, []) == s == Race({}, multiset{}, [], 0)
  {
    s := Race({}, multiset{}, [], 0);
  }

  lemma Extend(steps: seq<RaceStep>, s: Race, step: RaceStep) returns (more: seq<RaceStep>, t: Race)
    requires LegalRace(SECRETS, 0, steps) && RunRace(SECRETS, 0, steps) == s && LegalStep(s, step)
    ensures more == steps + [step] && LegalRace(SECRETS, 0, more) && RunRace(SECRETS, 0, more) == t
    ensures t == Advance(SECRETS, s, step)
  {
    more, t := steps + [step], Advance(SECRETS, s, step);
    assert more[..|steps|] == steps;
  }

  /** A request is accepted, and at the end of its life a replay of it passes the age test. */
  lemma ReplayWaits(r: Request) returns (steps: seq<RaceStep>, s: Race)
    requires r == Request("k", 0)
    ensures |steps| == 3 && !steps[0].Sweep? && !steps[1].Sweep? && !steps[2].Sweep?
    ensures LegalRace(SECRETS, 0, steps) && RunRace(SECRETS, 0, steps) == s
    ensures s == Race({ReplayKey(r)}, multiset{r}, [r], MAX_REQUEST_AGE)
  {
    hide ReplayKey, CleanedUp, RunRace, LegalRace;
    s := Nothing();
    steps, s := Extend([], s, Check(0, r));
    steps, s := Extend(steps, s, Store(0, r, true));
    assert s == Race({ReplayKey(r)}, multiset{}, [r], 0);
    steps, s := Extend(steps, s, Check(MAX_REQUEST_AGE, r));
  }

  /** Such a run: then a sweep comes in between, and the replay stores its key again. */
  lemma SweptInBetween() returns (steps: seq<RaceStep>)
    ensures LegalRace(SECRETS, 0, steps) && !AcceptedOnce(RunRace(SECRETS, 0, steps).accepted)
    ensures |steps| == 5 && (forall i | 0 <= i < 5 :: steps[i].Sweep? <==> i == 3)
    ensures |RunRace(SECRETS, 0, steps[..3]).seen| == 1
  {
    hide ReplayKey, KeyTimestamp, CleanedUp, RunRace, LegalRace;
    var r, late := Request("k", 0), MAX_REQUEST_AGE + SECOND;
    TimestampRecovered(r);
    Swept(ReplayKey(r), late);
    var first, s := ReplayWaits(r);
    steps, s := Extend(first, s, Sweep(late, {}));
    steps, s := Extend(steps, s, Store(late, r, true));
    assert s.accepted == [r, r] && s.accepted[0] == s.accepted[1];
    assert steps[..3] == first;
  }

  lemma Swept(key: string, now: int)
    requires KeyTimestamp(key) == Some(0) && now == MAX_REQUEST_AGE + SECOND
    ensures CleanedUp({key}, now, {})
  {
    hide KeyTimestamp;
    assert Cutoff(now) == 1 && Outdated({key}, now) == {key};
  }
}
