/**
 * The asynchronous WAL writer (internal/wal/async_wal.go) as a state machine: producers in
 * WriteAsync, the flushLoop goroutine, callers of Flush, and Close, interleaved in any order.
 * A step is one critical section or one channel, timer, WAL or callback operation.
 */
module AsyncWal {
  import opened Bytes

  datatype Entry = Entry(data: seq<byte>, hasCallback: bool)

  datatype Stage = Pending | Written(ok: bool)

  /** A swapped-out buffer on its way through doFlush; `fired` entries have had their callback. */
  datatype Batch = Batch(ids: seq<nat>, stage: Stage, fired: nat)

  datatype Why = ByToken | ByTimer | ByStop

  /** Where flushLoop is. Swap is the start of doFlushFromBuffer, Flushing the rest of it. */
  datatype Pc = Select | Woken | Swap(why: Why) | Flushing(batch: nat, why: Why) | Done

  /** Running, fired with its value still in the channel, or fired and received. */
  datatype Timer = Running | Fired | Received

  /**
   * `entries` is everything WriteAsync accepted, in buffer order; an entry is named by its place
   * there. `senders` counts producers between the critical section and the send on flushCh,
   * `token` is the content of flushCh, `closedAt` how many entries there were at Close.
   */
  datatype State = State(
    entries: seq<Entry>, buffer: seq<nat>, senders: nat, token: bool,
    pc: Pc, timer: Timer, stopped: bool, closedAt: nat,
    batches: seq<Batch>, wal: seq<(Option<nat>, seq<byte>)>, calls: seq<(nat, bool)>)

  datatype Step =
    | Enqueue(entry: Entry)
    | Send
    | CallFlush
    | DirectWrite(data: seq<byte>)
    | WriteBatch(batch: nat, ok: bool)
    | Callback(batch: nat)
    | Fire
    | TakeToken
    | StopTimer
    | TakeTimer
    | TakeStop
    | SwapBuffer
    | FinishFlush
    | Close

  const INITIAL := State([], [], 0, false, Select, Running, false, 0, [], [], [])

  /** Names of entries. */
  predicate Valid(entries: seq<Entry>, ids: seq<nat>) { forall k | 0 <= k < |ids| :: ids[k] < |entries| }

  function Data(entries: seq<Entry>, ids: seq<nat>): seq<byte>
    requires Valid(entries, ids)
  {
    if ids == [] then [] else Data(entries, ids[..|ids| - 1]) + entries[ids[|ids| - 1]].data
  }

  /** The callbacks of these entries, in order, told the result of the write. */
  function Callbacks(entries: seq<Entry>, ids: seq<nat>, result: bool): seq<(nat, bool)>
    requires Valid(entries, ids)
  {
    if ids == [] then []
    else
      var id := ids[|ids| - 1];
      Callbacks(entries, ids[..|ids| - 1], result) + if entries[id].hasCallback then [(id, result)] else []
  }

  /** doFlush run without interruption; `ok` is what the WAL says if it is asked. */
  method DoFlush(entries: seq<Entry>, ids: seq<nat>, ok: bool)
    returns (written: Option<seq<byte>>, result: bool, calls: seq<(nat, bool)>)
    requires Valid(entries, ids)
    ensures var data := Data(entries, ids);
            && result == (ok || data == [])
            && written == (if ok && data != [] then Some(data) else None)
            && calls == Callbacks(entries, ids, result)
  {
    result, written, calls := true, None, [];
    if |ids| == 0 {
      return;
    }
    var batchData: seq<byte> := [];
    for i := 0 to |ids|
      invariant batchData == Data(entries, ids[..i])
    {
      assert ids[..i + 1][..i] == ids[..i];
      batchData := batchData + entries[ids[i]].data;
    }
    assert ids[..|ids|] == ids;
    if |batchData| > 0 {
      result := ok;
      written := if ok then Some(batchData) else None;
    }
    for i := 0 to |ids|
      invariant calls == Callbacks(entries, ids[..i], result)
    {
      assert ids[..i + 1][..i] == ids[..i];
      if entries[ids[i]].hasCallback {
        calls := calls + [(ids[i], result)];
      }
    }
  }

  predicate Finished(b: Batch) { b.stage.Written? && b.fired == |b.ids| }

  /** Which steps can be taken; a step that is not enabled blocks its thread. */
  ghost predicate Enabled(s: State, step: Step) {
    match step
    case Enqueue(_) => true
    case Send => s.senders > 0
    case CallFlush => true
    case DirectWrite(_) => true
    case WriteBatch(b, _) =>
      && b < |s.batches| && s.batches[b].stage.Pending?
      && Valid(s.entries, s.batches[b].ids)
    case Callback(b) =>
      && b < |s.batches| && s.batches[b].stage.Written? && s.batches[b].fired < |s.batches[b].ids|
      && s.batches[b].ids[s.batches[b].fired] < |s.entries|
    case Fire => s.timer.Running?
    case TakeToken => s.pc.Select? && s.token
    case StopTimer => s.pc.Woken? && !s.timer.Received?
    case TakeTimer => s.pc.Select? && s.timer.Fired?
    case TakeStop => s.pc.Select? && s.stopped
    case SwapBuffer => s.pc.Swap?
    case FinishFlush => s.pc.Flushing? && s.pc.batch < |s.batches| && Finished(s.batches[s.pc.batch])
    case Close => !s.stopped
  }

  /** After the flush: back to the select, resetting the timer if it was what fired, or out of the loop. */
  function Resume(s: State, why: Why): State {
    match why
    case ByToken => s.(pc := Select)
    case ByTimer => s.(pc := Select, timer := Running)
    case ByStop => s.(pc := Done)
  }

  function TakeBuffer(s: State): State {
    s.(buffer := [], batches := s.batches + [Batch(s.buffer, Pending, 0)])
  }

  ghost function Next(max: nat, s: State, step: Step): State
    requires Enabled(s, step)
  {
    match step
    case Enqueue(entry) =>
      var buffer := s.buffer + [|s.entries|];
      s.(entries := s.entries + [entry], buffer := buffer,
         senders := if |buffer| >= max then s.senders + 1 else s.senders)
    case Send => s.(senders := s.senders - 1, token := true)
    case CallFlush => if s.buffer == [] then s else TakeBuffer(s)
    case DirectWrite(data) => s.(wal := s.wal + [(None, data)])
    case WriteBatch(b, ok) =>
      var data := Data(s.entries, s.batches[b].ids);
      var good := ok || data == [];
      s.(batches := s.batches[b := s.batches[b].(stage := Written(good))],
         wal := if good && data != [] then s.wal + [(Some(b), data)] else s.wal)
    case Callback(b) =>
      var batch := s.batches[b];
      var id := batch.ids[batch.fired];
      s.(batches := s.batches[b := batch.(fired := batch.fired + 1)],
         calls := if s.entries[id].hasCallback then s.calls + [(id, batch.stage.ok)] else s.calls)
    case Fire => s.(timer := Fired)
    case TakeToken => s.(pc := Woken, token := false)
    case StopTimer => s.(pc := Swap(ByToken), timer := Running)
    case TakeTimer => s.(pc := Swap(ByTimer), timer := Received)
    case TakeStop => s.(pc := Swap(ByStop))
    case SwapBuffer =>
      if s.buffer == [] then Resume(s, s.pc.why)
      else TakeBuffer(s).(pc := Flushing(|s.batches|, s.pc.why))
    case FinishFlush => Resume(s, s.pc.why)
    case Close => s.(stopped := true, closedAt := |s.entries|)
  }

  ghost predicate LegalRun(max: nat, steps: seq<Step>)
    decreases |steps|, 0
  {
    steps != [] ==>
      && LegalRun(max, steps[..|steps| - 1])
      && Enabled(Run(max, steps[..|steps| - 1]), steps[|steps| - 1])
  }

  ghost function Run(max: nat, steps: seq<Step>): State
    requires LegalRun(max, steps)
    decreases |steps|, 1
  {
    if steps == [] then INITIAL else Next(max, Run(max, steps[..|steps| - 1]), steps[|steps| - 1])
  }

  // ---- what the state records ----

  /** The entries given to WriteAsync, in order. */
  function Given(steps: seq<Step>): seq<Entry> {
    if steps == [] then []
    else
      var before, step := steps[..|steps| - 1], steps[|steps| - 1];
      Given(before) + if step.Enqueue? then [step.entry] else []
  }

  /** How many of them before Close, if it has been called. */
  function GivenAtClose(steps: seq<Step>): Option<nat> {
    if steps == [] then None
    else
      var before, step := steps[..|steps| - 1], steps[|steps| - 1];
      if step.Close? then Some(|Given(before)|) else GivenAtClose(before)
  }

  lemma {:induction false} StateRecords(max: nat, steps: seq<Step>)
    requires LegalRun(max, steps)
    ensures var s := Run(max, steps);
            && s.entries == Given(steps)
            && GivenAtClose(steps) == if s.stopped then Some(s.closedAt) else None
  {
    hide Enabled, Next;
    if steps != [] {
      StateRecords(max, steps[..|steps| - 1]);
      StepRecords(max, Run(max, steps[..|steps| - 1]), steps[|steps| - 1]);
    }
  }

  lemma StepRecords(max: nat, s: State, step: Step)
    requires Enabled(s, step)
    ensures var t := Next(max, s, step);
            && t.entries == s.entries + (if step.Enqueue? then [step.entry] else [])
            && t.stopped == (s.stopped || step.Close?)
            && t.closedAt == if step.Close? then |s.entries| else s.closedAt
  {
    hide Data;
    assert s.entries + [] == s.entries;
  }

  /** A producer sets out to wake flushLoop exactly when its entry fills the buffer. */
  lemma WakesIff(max: nat, s: State, entry: Entry)
    ensures var t := Next(max, s, Enqueue(entry));
            |t.buffer| == |s.buffer| + 1 && (t.senders == s.senders + 1 <==> |t.buffer| >= max)
            && (t.senders == s.senders <==> |t.buffer| < max)
  {}

  // ---- no lost wake-up ----

  /** The buffer length at which a producer wakes the flusher. */
  function Threshold(max: nat): nat { if max == 0 then 1 else max }

  /** Someone is about to take the buffer, or will be woken to. */
  ghost predicate WakeUp(s: State) {
    s.token || s.senders > 0 || s.pc.Woken? || s.pc.Swap?
  }

  ghost predicate LoopInv(max: nat, s: State) {
    && (|s.buffer| >= Threshold(max) ==> WakeUp(s))
    && (s.timer.Received? ==> (s.pc.Swap? || s.pc.Flushing?) && s.pc.why.ByTimer?)
    && (s.pc.Swap? && s.pc.why.ByTimer? ==> s.timer.Received?)
    && (s.pc.Flushing? ==> s.pc.batch < |s.batches| && (s.pc.why.ByTimer? ==> s.timer.Received?))
    && (s.pc.Done? ==> s.stopped)
    && ((s.pc.Swap? || s.pc.Flushing?) && s.pc.why.ByStop? ==> s.stopped)
  }

  lemma LoopInvStep(max: nat, s: State, step: Step)
    requires LoopInv(max, s) && Enabled(s, step)
    ensures LoopInv(max, Next(max, s, step))
  {
    hide Data;
  }

  lemma {:induction false} LoopInvRun(max: nat, steps: seq<Step>)
    requires LegalRun(max, steps)
    ensures LoopInv(max, Run(max, steps))
  {
    hide LoopInv, Enabled, Next;
    if steps == [] {
      LoopInvInitial(max);
    } else {
      LoopInvRun(max, steps[..|steps| - 1]);
      LoopInvStep(max, Run(max, steps[..|steps| - 1]), steps[|steps| - 1]);
    }
  }

  lemma LoopInvInitial(max: nat)
    ensures LoopInv(max, INITIAL)
  {}

  /**
   * In every reachable state with a full buffer a flush token is pending, or a producer is about to
   * send one, or the flusher is between waking and swapping the buffer.
   */
  lemma {:induction false} NoLostWakeUp(max: nat, steps: seq<Step>)
    requires LegalRun(max, steps)
    ensures |Run(max, steps).buffer| >= Threshold(max) ==> WakeUp(Run(max, steps))
  {
    LoopInvRun(max, steps);
  }

  // ---- progress ----

  /** Steps flushLoop still has to take, with the help of a producer's send, before it swaps the buffer. */
  ghost function Rank(s: State): nat
    requires s.pc.Flushing? ==> s.pc.batch < |s.batches|
  {
    match s.pc
    case Swap(_) => 1
    case Woken => 2
    case Select => if s.token then 3 else 4
    case Flushing(b, _) =>
      var batch := s.batches[b];
      6 + (if batch.stage.Pending? then 1 else 0)
      + (if batch.fired <= |batch.ids| then |batch.ids| - batch.fired else 0)
    case Done => 0
  }

  /** The step of flushLoop, or of a producer about to send, that brings the next swap closer. */
  ghost function Helper(s: State): Step {
    match s.pc
    case Swap(_) => SwapBuffer
    case Woken => StopTimer
    case Select => if s.token then TakeToken else Send
    case Flushing(b, _) =>
      if b < |s.batches| && s.batches[b].stage.Pending? then WriteBatch(b, true)
      else if b < |s.batches| && s.batches[b].fired < |s.batches[b].ids| then Callback(b)
      else FinishFlush
    case Done => SwapBuffer
  }

  /** Batches in progress are sound: callbacks only after the write and no more than there are entries. */
  ghost predicate BatchInv(s: State) {
    && (forall b | 0 <= b < |s.batches| :: BatchOk(s.entries, s.batches[b]))
    && Valid(s.entries, s.buffer)
  }

  ghost predicate BatchOk(entries: seq<Entry>, b: Batch) {
    b.ids != [] && Valid(entries, b.ids) && b.fired <= |b.ids| && (b.stage.Pending? ==> b.fired == 0)
  }

  lemma BatchInvStep(max: nat, s: State, step: Step)
    requires BatchInv(s) && Enabled(s, step)
    ensures BatchInv(Next(max, s, step))
  {
    hide Data;
  }

  lemma {:induction false} BatchInvRun(max: nat, steps: seq<Step>)
    requires LegalRun(max, steps)
    ensures BatchInv(Run(max, steps))
  {
    hide Enabled, Next, BatchOk;
    if steps != [] {
      BatchInvRun(max, steps[..|steps| - 1]);
      BatchInvStep(max, Run(max, steps[..|steps| - 1]), steps[|steps| - 1]);
    }
  }

  /**
   * While the writer is open, in every reachable state with a full buffer the next step of flushLoop
   * (or of the producer that owes the token) is enabled, and it swaps the buffer or brings
   * the swap closer.
   */
  lemma FlusherAdvances(max: nat, steps: seq<Step>)
    requires LegalRun(max, steps)
    ensures var s := Run(max, steps);
            |s.buffer| >= Threshold(max) && !s.stopped ==>
              && (s.pc.Flushing? ==> s.pc.batch < |s.batches|)
              && Enabled(s, Helper(s))
              && var t := Next(max, s, Helper(s));
                 t.buffer == [] || ((t.pc.Flushing? ==> t.pc.batch < |t.batches|) && Rank(t) < Rank(s))
  {
    hide Data;
    LoopInvRun(max, steps);
    BatchInvRun(max, steps);
    var s := Run(max, steps);
    if s.pc.Flushing? { assert BatchOk(s.entries, s.batches[s.pc.batch]); }
  }

  /** No step of any thread sets the flusher back before the buffer is swapped. */
  lemma NothingSetsBack(max: nat, steps: seq<Step>, step: Step)
    requires LegalRun(max, steps) && Enabled(Run(max, steps), step)
    ensures var s := Run(max, steps);
            var t := Next(max, s, step);
            |s.buffer| >= Threshold(max) && !t.stopped ==>
              || t.buffer == []
              || (&& |t.buffer| >= |s.buffer|
                  && (s.pc.Flushing? ==> s.pc.batch < |s.batches|)
                  && (t.pc.Flushing? ==> t.pc.batch < |t.batches|)
                  && Rank(t) <= Rank(s))
  {
    hide Data;
    LoopInvRun(max, steps);
    BatchInvRun(max, steps);
    var s := Run(max, steps);
    if s.pc.Flushing? { assert BatchOk(s.entries, s.batches[s.pc.batch]); }
  }

  lemma RunSnoc(max: nat, steps: seq<Step>, step: Step)
    requires LegalRun(max, steps) && Enabled(Run(max, steps), step)
    ensures LegalRun(max, steps + [step]) && Run(max, steps + [step]) == Next(max, Run(max, steps), step)
  {
    hide Enabled, Next;
    assert (steps + [step])[..|steps|] == steps;
  }

  /** A buffer is taken whole, as the newest batch, or stays as it is but for what is enqueued. */
  lemma TakenOrKept(max: nat, s: State, step: Step)
    requires Enabled(s, step) && s.buffer != []
    ensures var t := Next(max, s, step);
            || (t.buffer == [] && t.batches == s.batches + [Batch(s.buffer, Pending, 0)])
            || (t.buffer == s.buffer && |t.batches| == |s.batches|)
            || (step.Enqueue? && t.buffer == s.buffer + [|s.entries|] && |t.batches| == |s.batches|)
  {
    hide Data;
  }

  /** The steps after which the buffer of s is the newest batch. */
  ghost predicate Takes(s: State, t: State) {
    t.buffer == [] && |t.batches| == |s.batches| + 1 && t.batches[|s.batches|].ids == s.buffer
  }

  /** Every step of `more` is the one `next` names in the state it is taken in. */
  ghost predicate Follows(max: nat, steps: seq<Step>, more: seq<Step>, next: State -> Step)
    requires LegalRun(max, steps + more)
  {
    forall i | 0 <= i < |more| ::
      LegalRun(max, steps + more[..i]) && more[i] == next(Run(max, steps + more[..i]))
  }

  lemma FollowsNothing(max: nat, steps: seq<Step>, next: State -> Step)
    requires LegalRun(max, steps)
    ensures steps + [] == steps && Follows(max, steps, [], next)
  {
    assert steps + [] == steps;
  }

  lemma FollowsCons(max: nat, steps: seq<Step>, rest: seq<Step>, next: State -> Step)
    requires LegalRun(max, steps) && LegalRun(max, steps + [next(Run(max, steps))] + rest)
    requires Follows(max, steps + [next(Run(max, steps))], rest, next)
    ensures steps + ([next(Run(max, steps))] + rest) == steps + [next(Run(max, steps))] + rest
    ensures Follows(max, steps, [next(Run(max, steps))] + rest, next)
  {
    hide LegalRun, Run;
    var h := next(Run(max, steps));
    var more := [h] + rest;
    assert steps + more == steps + [h] + rest;
    forall i | 0 <= i < |more|
      ensures LegalRun(max, steps + more[..i]) && more[i] == next(Run(max, steps + more[..i]))
    {
      if i == 0 {
        assert steps + more[..0] == steps;
      } else {
        assert steps + more[..i] == steps + [h] + rest[..i - 1] && more[i] == rest[i - 1];
      }
    }
  }

  /**
   * So a full buffer of an open writer can always be swapped out, as the newest batch, by the next steps of
   * flushLoop and of the producer that owes it a token, without waiting for the timer or for anybody else.
   */
  lemma {:induction false} FullBufferIsFlushed(max: nat, steps: seq<Step>) returns (more: seq<Step>)
    requires LegalRun(max, steps) && !Run(max, steps).stopped
    requires |Run(max, steps).buffer| >= Threshold(max)
    ensures LegalRun(max, steps + more) && Takes(Run(max, steps), Run(max, steps + more))
    ensures Follows(max, steps, more, Helper)
    decreases var s := Run(max, steps); if s.pc.Flushing? && s.pc.batch >= |s.batches| then 0 else Rank(s)
  {
    hide Enabled, Next, Helper, Rank, Follows;
    var s := Run(max, steps);
    FlusherAdvances(max, steps);
    var h := Helper(s);
    RunSnoc(max, steps, h);
    TakenOrKept(max, s, h);
    HelperQuiet(s);
    StepRecords(max, s, h);
    var rest := [];
    if Next(max, s, h).buffer != [] {
      rest := FullBufferIsFlushed(max, steps + [h]);
    } else {
      FollowsNothing(max, steps + [h], Helper);
    }
    FollowsCons(max, steps, rest, Helper);
    more := [h] + rest;
  }

  lemma HelperQuiet(s: State)
    ensures !Helper(s).Enqueue? && !Helper(s).Close? && !Helper(s).CallFlush?
  {}

  // ---- the timer ----

  /** The next step of flushLoop when nobody sends it a token: it waits for the timer. */
  ghost function Ticking(s: State): Step {
    if !s.pc.Select? then Helper(s) else if s.timer.Fired? then TakeTimer else Fire
  }

  ghost function TimedRank(s: State): nat
    requires s.pc.Flushing? ==> s.pc.batch < |s.batches|
  {
    if s.pc.Select? then if s.timer.Fired? then 2 else 3 else Rank(s)
  }

  /** In every reachable open state that step is enabled, and it takes the buffer or brings that closer. */
  lemma TimerAdvances(max: nat, steps: seq<Step>)
    requires LegalRun(max, steps)
    ensures var s := Run(max, steps);
            s.buffer != [] && !s.stopped ==>
              && (s.pc.Flushing? ==> s.pc.batch < |s.batches|)
              && Enabled(s, Ticking(s))
              && var t := Next(max, s, Ticking(s));
                 t.buffer == [] || ((t.pc.Flushing? ==> t.pc.batch < |t.batches|) && TimedRank(t) < TimedRank(s))
  {
    hide Data, Run, LegalRun, WakeUp;
    LoopInvRun(max, steps);
    BatchInvRun(max, steps);
    var s := Run(max, steps);
    if s.pc.Flushing? { assert BatchOk(s.entries, s.batches[s.pc.batch]); }
  }

  /** And no step of any thread sets it back before the buffer is taken. */
  lemma TimerNotSetBack(max: nat, steps: seq<Step>, step: Step)
    requires LegalRun(max, steps) && Enabled(Run(max, steps), step)
    ensures var s := Run(max, steps);
            var t := Next(max, s, step);
            s.buffer != [] && !t.stopped ==>
              || t.buffer == []
              || (&& (s.pc.Flushing? ==> s.pc.batch < |s.batches|)
                  && (t.pc.Flushing? ==> t.pc.batch < |t.batches|)
                  && TimedRank(t) <= TimedRank(s))
  {
    hide Data, Run, LegalRun, WakeUp;
    LoopInvRun(max, steps);
    BatchInvRun(max, steps);
    var s := Run(max, steps);
    if s.pc.Flushing? { assert BatchOk(s.entries, s.batches[s.pc.batch]); }
  }

  /**
   * So any buffer of an open writer, full or not, is taken as the newest batch by the steps of flushLoop
   * alone, once its timer fires: no producer, no caller of Flush and no Close is needed.
   */
  lemma {:induction false} TimerFlushes(max: nat, steps: seq<Step>) returns (more: seq<Step>)
    requires LegalRun(max, steps) && !Run(max, steps).stopped && Run(max, steps).buffer != []
    ensures LegalRun(max, steps + more) && Takes(Run(max, steps), Run(max, steps + more))
    ensures Follows(max, steps, more, Ticking)
    decreases var s := Run(max, steps); if s.pc.Flushing? && s.pc.batch >= |s.batches| then 0 else TimedRank(s)
  {
    hide Enabled, Next, Ticking, TimedRank, Follows;
    var s := Run(max, steps);
    TimerAdvances(max, steps);
    var h := Ticking(s);
    RunSnoc(max, steps, h);
    TakenOrKept(max, s, h);
    TickingQuiet(s);
    StepRecords(max, s, h);
    var rest := [];
    if Next(max, s, h).buffer != [] {
      rest := TimerFlushes(max, steps + [h]);
    } else {
      FollowsNothing(max, steps + [h], Ticking);
    }
    FollowsCons(max, steps, rest, Ticking);
    more := [h] + rest;
  }

  lemma TickingQuiet(s: State)
    ensures !Ticking(s).Enqueue? && !Ticking(s).Close? && !Ticking(s).CallFlush? && (!s.pc.Done? ==> !Ticking(s).Send?)
  {}

  // ---- rest ----

  /** flushLoop waits in its select with nothing to wait for but a producer, the timer or Close. */
  ghost predicate Idle(s: State) { s.pc.Select? && !s.token && s.timer.Running? }

  /** Its next step otherwise, if nobody else moves. */
  ghost function Settling(s: State): Step {
    if !s.pc.Select? then Helper(s) else if s.token then TakeToken else TakeTimer
  }

  /** A wake-up has reached it that it has not answered yet. */
  ghost predicate Roused(s: State) { s.token || s.timer.Fired? || s.pc.Woken? || s.pc.Swap? }

  ghost function RestRank(s: State): nat
    requires s.pc.Flushing? ==> s.pc.batch < |s.batches|
  {
    var base := (if s.token then 20 else 0) + (if s.timer.Fired? then 10 else 0) + 4 * |s.buffer|;
    match s.pc
    case Done => 0
    case Select => 1 + base
    case Swap(_) => 9 + base
    case Woken => 16 + base
    case Flushing(_, _) => Rank(s) - 3 + base
  }

  /** Wake-ups due: a token, one already taken, and a timer value, which a token taken cancels. */
  ghost function Due(s: State): nat {
    (if s.token then 1 else 0) + (if s.pc.Woken? || s.pc.Swap? then 1 else 0)
    + if s.timer.Fired? && !s.token && !s.pc.Woken? then 1 else 0
  }

  function Swaps(steps: seq<Step>): nat {
    if steps == [] then 0 else (if steps[0].SwapBuffer? then 1 else 0) + Swaps(steps[1..])
  }

  lemma CloserToRest(max: nat, steps: seq<Step>)
    requires LegalRun(max, steps)
    ensures var s := Run(max, steps);
            !s.stopped && !Idle(s) ==>
              && (s.pc.Flushing? ==> s.pc.batch < |s.batches|)
              && Enabled(s, Settling(s))
              && var t := Next(max, s, Settling(s));
                 && !t.stopped && (t.pc.Flushing? ==> t.pc.batch < |t.batches|) && RestRank(t) < RestRank(s)
                 && (Roused(s) || s.buffer == [] ==> Roused(t) || t.buffer == [])
                 && Due(s) == Due(t) + if Settling(s).SwapBuffer? then 1 else 0
  {
    hide Data, Run, LegalRun, WakeUp;
    LoopInvRun(max, steps);
    BatchInvRun(max, steps);
    var s := Run(max, steps);
    if s.pc.Flushing? { assert BatchOk(s.entries, s.batches[s.pc.batch]); }
  }

  /**
   * Left alone, flushLoop comes to rest, and if it had been roused, with an empty buffer: no wake-up is in
   * vain. It looks at the buffer once for each wake-up due and not oftener.
   */
  lemma {:induction false} ComesToRest(max: nat, steps: seq<Step>) returns (more: seq<Step>)
    requires LegalRun(max, steps) && !Run(max, steps).stopped
    ensures LegalRun(max, steps + more) && Idle(Run(max, steps + more)) && Follows(max, steps, more, Settling)
    ensures Roused(Run(max, steps)) || Run(max, steps).buffer == [] ==> Run(max, steps + more).buffer == []
    ensures Swaps(more) == Due(Run(max, steps))
    decreases var s := Run(max, steps); if s.pc.Flushing? && s.pc.batch >= |s.batches| then 0 else RestRank(s)
  {
    hide Enabled, Next, Settling, RestRank, Follows;
    var s := Run(max, steps);
    CloserToRest(max, steps);
    if Idle(s) {
      more := [];
      FollowsNothing(max, steps, Settling);
    } else {
      RunSnoc(max, steps, Settling(s));
      var rest := ComesToRest(max, steps + [Settling(s)]);
      FollowsCons(max, steps, rest, Settling);
      more := [Settling(s)] + rest;
      assert more[1..] == rest;
    }
  }

  // ---- Close ----

  /** The next step of flushLoop itself once the writer is stopped. */
  ghost function Closing(s: State): Step { if s.pc.Select? then TakeStop else Helper(s) }

  /** Steps flushLoop has left before it ends, if it takes the stop branch whenever it selects. */
  ghost function CloseRank(s: State): nat
    requires s.pc.Flushing? ==> s.pc.batch < |s.batches|
  {
    match s.pc
    case Done => 0
    case Flushing(b, why) => if why.ByStop? then Rank(s) else 20 + |s.buffer| + Rank(s)
    case Swap(why) => if why.ByStop? then 10 + |s.buffer| else 30 + |s.buffer|
    case Select => 15 + |s.buffer|
    case Woken => 40 + |s.buffer|
  }

  /** In every reachable stopped state its next step is enabled, and it comes closer to the end. */
  lemma CloserToDone(max: nat, steps: seq<Step>)
    requires LegalRun(max, steps)
    ensures var s := Run(max, steps);
            s.stopped && !s.pc.Done? ==>
              && (s.pc.Flushing? ==> s.pc.batch < |s.batches|)
              && Enabled(s, Closing(s))
              && var t := Next(max, s, Closing(s));
                 t.stopped && (t.pc.Flushing? ==> t.pc.batch < |t.batches|) && CloseRank(t) < CloseRank(s)
  {
    hide Data, Run, LegalRun, WakeUp;
    LoopInvRun(max, steps);
    BatchInvRun(max, steps);
    var s := Run(max, steps);
    if s.pc.Flushing? { assert BatchOk(s.entries, s.batches[s.pc.batch]); }
  }

  /** So after Close flushLoop can always reach its end by its own steps alone, and Close return. */
  lemma {:induction false} CloseReturns(max: nat, steps: seq<Step>) returns (more: seq<Step>)
    requires LegalRun(max, steps) && Run(max, steps).stopped
    ensures LegalRun(max, steps + more) && Run(max, steps + more).pc.Done?
    ensures Follows(max, steps, more, Closing)
    decreases var s := Run(max, steps); if s.pc.Flushing? && s.pc.batch >= |s.batches| then 0 else CloseRank(s)
  {
    hide Enabled, Next, Closing, CloseRank, Follows;
    var s := Run(max, steps);
    CloserToDone(max, steps);
    if s.pc.Done? {
      more := [];
      FollowsNothing(max, steps, Closing);
    } else {
      RunSnoc(max, steps, Closing(s));
      var rest := CloseReturns(max, steps + [Closing(s)]);
      FollowsCons(max, steps, rest, Closing);
      more := [Closing(s)] + rest;
    }
  }
}
