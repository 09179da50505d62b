/**
 * What every interleaving of the asynchronous WAL writer keeps: no entry is lost, duplicated or
 * reordered, every callback is called once, and what flushLoop hands to the WAL is in order.
 */
module AsyncRuns {
  import opened Bytes
  import opened AsyncWal

  // ---- conservation ----

  /** The number of entries in the batches before b. */
  function Start(batches: seq<Batch>, b: nat): nat
    requires b <= |batches|
  {
    if b == 0 then 0 else Start(batches, b - 1) + |batches[b - 1].ids|
  }

  /** The batches and then the buffer hold every entry once, in the order they were enqueued. */
  ghost predicate InOrder(s: State) {
    && |s.entries| == Start(s.batches, |s.batches|) + |s.buffer|
    && (forall p | 0 <= p < |s.buffer| :: s.buffer[p] == Start(s.batches, |s.batches|) + p)
    && (forall b, p | 0 <= b < |s.batches| && 0 <= p < |s.batches[b].ids| ::
          s.batches[b].ids[p] == Start(s.batches, b) + p)
  }

  lemma {:induction false} StartSame(p: seq<Batch>, q: seq<Batch>, b: nat)
    requires b <= |p| && b <= |q| && forall i | 0 <= i < b :: p[i].ids == q[i].ids
    ensures Start(p, b) == Start(q, b)
  {
    if b > 0 { StartSame(p, q, b - 1); }
  }

  lemma {:induction false} StartMonotone(batches: seq<Batch>, b: nat, c: nat)
    requires b < c <= |batches|
    ensures Start(batches, b) + |batches[b].ids| <= Start(batches, c)
  {
    if b < c - 1 { StartMonotone(batches, b, c - 1); }
  }

  lemma InOrderTake(s: State)
    requires InOrder(s)
    ensures InOrder(TakeBuffer(s))
  {
    var t := TakeBuffer(s);
    var n := |s.batches|;
    forall b | 0 <= b <= n ensures Start(t.batches, b) == Start(s.batches, b) {
      StartSame(t.batches, s.batches, b);
    }
    assert t.batches[n].ids == s.buffer;
  }

  lemma InOrderKeep(s: State, t: State)
    requires InOrder(s) && t.entries == s.entries && t.buffer == s.buffer && |t.batches| == |s.batches|
    requires forall b | 0 <= b < |s.batches| :: t.batches[b].ids == s.batches[b].ids
    ensures InOrder(t)
  {
    forall b | 0 <= b <= |s.batches| ensures Start(t.batches, b) == Start(s.batches, b) {
      StartSame(t.batches, s.batches, b);
    }
  }

  lemma InOrderStep(max: nat, s: State, step: Step)
    requires InOrder(s) && Enabled(s, step)
    ensures InOrder(Next(max, s, step))
  {
    hide Data, Start;
    match step
    case CallFlush => InOrderTake(s);
    case SwapBuffer => InOrderTake(s);
    case Enqueue(_) =>
    case _ => InOrderKeep(s, Next(max, s, step));
  }

  /** The results of the calls made for one name, in order. */
  function Of<K(==), V>(log: seq<(K, V)>, k: K): seq<V> {
    if log == [] then []
    else Of(log[..|log| - 1], k) + if log[|log| - 1].0 == k then [log[|log| - 1].1] else []
  }

  /** What the callback of entry p of a batch has been told. */
  function Told(entries: seq<Entry>, b: Batch, p: nat): seq<bool>
    requires p < |b.ids| && b.ids[p] < |entries|
  {
    if b.stage.Written? && p < b.fired && entries[b.ids[p]].hasCallback then [b.stage.ok] else []
  }

  /** Callbacks are called once each, after the write, with the batch's result. */
  ghost predicate CallInv(s: State) {
    && (forall b, p | 0 <= b < |s.batches| && 0 <= p < |s.batches[b].ids| && s.batches[b].ids[p] < |s.entries| ::
          Of(s.calls, s.batches[b].ids[p]) == Told(s.entries, s.batches[b], p))
    && (forall i: nat | i >= Start(s.batches, |s.batches|) :: Of(s.calls, i) == [])
  }

  lemma OfSnoc<K, V>(log: seq<(K, V)>, e: (K, V), k: K)
    ensures Of(log + [e], k) == Of(log, k) + if e.0 == k then [e.1] else []
  {
    assert (log + [e])[..|log|] == log;
  }

  lemma CallInvCallback(max: nat, s: State, step: Step)
    requires InOrder(s) && BatchInv(s) && CallInv(s) && step.Callback? && Enabled(s, step)
    ensures CallInv(Next(max, s, step))
  {
    hide Start, Of;
    var t, c := Next(max, s, step), step.batch;
    var batch := s.batches[c];
    var id := batch.ids[batch.fired];
    StartSame(t.batches, s.batches, |s.batches|);
    StartMonotone(s.batches, c, |s.batches|);
    var told := batch.stage.ok;
    forall i: nat ensures Of(t.calls, i) == Of(s.calls, i) + if i == id && s.entries[id].hasCallback then [told] else [] {
      OfSnoc(s.calls, (id, told), i);
    }
    forall b, p | 0 <= b < |t.batches| && 0 <= p < |t.batches[b].ids| && t.batches[b].ids[p] < |t.entries|
      ensures Of(t.calls, t.batches[b].ids[p]) == Told(t.entries, t.batches[b], p)
    {
      assert t.batches[b].ids == s.batches[b].ids;
      if b < c { StartMonotone(s.batches, b, c); }
      if c < b { StartMonotone(s.batches, c, b); }
    }
  }

  lemma CallInvTake(s: State, t: State)
    requires InOrder(s) && CallInv(s) && t.batches == TakeBuffer(s).batches && t.calls == s.calls && t.entries == s.entries
    ensures CallInv(t)
  {
    hide Of;
    StartSame(t.batches, s.batches, |s.batches|);
  }

  lemma CallInvStep(max: nat, s: State, step: Step)
    requires InOrder(s) && BatchInv(s) && CallInv(s) && Enabled(s, step)
    ensures CallInv(Next(max, s, step))
  {
    hide Start, Of, Data, InOrder;
    var t := Next(max, s, step);
    match step
    case Callback(_) => CallInvCallback(max, s, step);
    case CallFlush => if s.buffer != [] { CallInvTake(s, t); }
    case SwapBuffer => if s.buffer != [] { CallInvTake(s, t); }
    case WriteBatch(_, _) => StartSame(t.batches, s.batches, |s.batches|);
    case _ =>
  }

  /** What the WAL has been given for a batch. */
  function Logged(entries: seq<Entry>, b: Batch): seq<seq<byte>>
    requires Valid(entries, b.ids)
  {
    if b.stage == Written(true) && Data(entries, b.ids) != [] then [Data(entries, b.ids)] else []
  }

  /** Each batch is written at most once, whole, and exactly when it reports success and is not empty. */
  ghost predicate WriteInv(s: State) {
    && (forall b | 0 <= b < |s.batches| && Valid(s.entries, s.batches[b].ids) ::
          Of(s.wal, Some(b)) == Logged(s.entries, s.batches[b]))
    && (forall b: nat | b >= |s.batches| :: Of(s.wal, Some(b)) == [])
  }

  lemma {:induction false} DataStable(entries: seq<Entry>, more: seq<Entry>, ids: seq<nat>)
    requires Valid(entries, ids)
    ensures Valid(entries + more, ids) && Data(entries + more, ids) == Data(entries, ids)
  {
    if ids != [] { DataStable(entries, more, ids[..|ids| - 1]); }
  }

  lemma WriteInvWrite(max: nat, s: State, step: Step)
    requires WriteInv(s) && BatchInv(s) && step.WriteBatch? && Enabled(s, step)
    ensures WriteInv(Next(max, s, step))
  {
    hide Of, Data;
    var t, c := Next(max, s, step), step.batch;
    var data := Data(s.entries, s.batches[c].ids);
    forall b: nat ensures Of(t.wal, Some(b)) == Of(s.wal, Some(b)) + if b == c && t.wal != s.wal then [data] else [] {
      OfSnoc(s.wal, (Some(c), data), Some(b));
    }
  }

  lemma WriteInvEnqueue(max: nat, s: State, step: Step)
    requires WriteInv(s) && BatchInv(s) && step.Enqueue?
    ensures WriteInv(Next(max, s, step))
  {
    hide Of, Data;
    var t := Next(max, s, step);
    forall b | 0 <= b < |s.batches| ensures Logged(t.entries, s.batches[b]) == Logged(s.entries, s.batches[b]) {
      assert BatchOk(s.entries, s.batches[b]);
      DataStable(s.entries, [step.entry], s.batches[b].ids);
    }
  }

  lemma WriteInvDirect(max: nat, s: State, step: Step)
    requires WriteInv(s) && step.DirectWrite?
    ensures WriteInv(Next(max, s, step))
  {
    hide Of, Data, Logged;
    var t := Next(max, s, step);
    forall b: nat ensures Of(t.wal, Some(b)) == Of(s.wal, Some(b)) { OfSnoc(s.wal, (None, step.data), Some(b)); }
  }

  lemma WriteInvTake(s: State, t: State)
    requires WriteInv(s) && t.batches == TakeBuffer(s).batches && t.wal == s.wal && t.entries == s.entries
    ensures WriteInv(t)
  {
    hide Of, Data;
  }

  lemma WriteInvKeep(s: State, t: State)
    requires WriteInv(s) && t.wal == s.wal && t.entries == s.entries && |t.batches| == |s.batches|
    requires forall b | 0 <= b < |s.batches| ::
               t.batches[b].ids == s.batches[b].ids && t.batches[b].stage == s.batches[b].stage
    ensures WriteInv(t)
  {
    hide Of, Data;
  }

  lemma WriteInvStep(max: nat, s: State, step: Step)
    requires WriteInv(s) && BatchInv(s) && Enabled(s, step)
    ensures WriteInv(Next(max, s, step))
  {
    hide Data, WriteInv, BatchInv;
    var t := Next(max, s, step);
    match step
    case WriteBatch(_, _) => WriteInvWrite(max, s, step);
    case DirectWrite(_) => WriteInvDirect(max, s, step);
    case Enqueue(_) => WriteInvEnqueue(max, s, step);
    case CallFlush => if s.buffer != [] { WriteInvTake(s, t); } else { WriteInvKeep(s, t); }
    case SwapBuffer => if s.buffer != [] { WriteInvTake(s, t); } else { WriteInvKeep(s, t); }
    case _ => WriteInvKeep(s, t);
  }

  ghost predicate Conserved(s: State) { InOrder(s) && BatchInv(s) && CallInv(s) && WriteInv(s) }

  lemma {:induction false} ConservedRun(max: nat, steps: seq<Step>)
    requires LegalRun(max, steps)
    ensures Conserved(Run(max, steps))
  {
    hide Enabled, Next, InOrder, BatchInv, CallInv, WriteInv;
    if steps == [] {
      ConservedInitial();
    } else {
      var s, step := Run(max, steps[..|steps| - 1]), steps[|steps| - 1];
      ConservedRun(max, steps[..|steps| - 1]);
      InOrderStep(max, s, step);
      BatchInvStep(max, s, step);
      CallInvStep(max, s, step);
      WriteInvStep(max, s, step);
    }
  }

  lemma ConservedInitial()
    ensures Conserved(INITIAL)
  {
    var none: seq<(nat, bool)>, nothing: seq<(Option<nat>, seq<byte>)> := [], [];
    assert forall i: nat :: Of(none, i) == [];
    assert forall b: nat :: Of(nothing, Some(b)) == [];
  }

  function Names(n: nat): (s: seq<nat>)
    ensures |s| == n && forall i | 0 <= i < n :: s[i] == i
  {
    seq(n, i requires 0 <= i < n => i)
  }

  /** The entries of all batches, in the order the batches were taken. */
  function Flat(batches: seq<Batch>): seq<nat> {
    if batches == [] then [] else Flat(batches[..|batches| - 1]) + batches[|batches| - 1].ids
  }

  lemma {:induction false} FlatInOrder(batches: seq<Batch>)
    requires forall b, p | 0 <= b < |batches| && 0 <= p < |batches[b].ids| :: batches[b].ids[p] == Start(batches, b) + p
    ensures Flat(batches) == Names(Start(batches, |batches|))
  {
    if batches != [] {
      var n := |batches| - 1;
      var front := batches[..n];
      forall b | 0 <= b <= n ensures Start(front, b) == Start(batches, b) { StartSame(front, batches, b); }
      FlatInOrder(front);
    }
  }

  /**
   * Under every interleaving the batches taken so far and then the buffer are exactly the entries
   * enqueued, each once and in order; the callback of an entry has been called once, with its batch's
   * result, if the batch has got that far, and otherwise not at all; and the WAL holds
   * the data of each batch once if its write succeeded and otherwise not at all.
   */
  lemma AsyncConservation(max: nat, steps: seq<Step>)
    requires LegalRun(max, steps)
    ensures var s := Run(max, steps);
            && Flat(s.batches) + s.buffer == Names(|s.entries|)
            && (forall i | 0 <= i < |s.buffer| :: Of(s.calls, s.buffer[i]) == [])
            && (forall b | 0 <= b < |s.batches| ::
                  && Valid(s.entries, s.batches[b].ids)
                  && Of(s.wal, Some(b)) == Logged(s.entries, s.batches[b])
                  && forall p | 0 <= p < |s.batches[b].ids| ::
                       Of(s.calls, s.batches[b].ids[p]) == Told(s.entries, s.batches[b], p))
  {
    hide Of, Run, LegalRun, Data, Start;
    ConservedRun(max, steps);
    var s := Run(max, steps);
    FlatInOrder(s.batches);
    assert forall b | 0 <= b < |s.batches| :: BatchOk(s.entries, s.batches[b]);
  }

  /** After a call of Flush every entry enqueued so far is in a batch, whatever state it found. */
  lemma FlushLeavesNothing(max: nat, steps: seq<Step>)
    requires LegalRun(max, steps)
    ensures var t := Next(max, Run(max, steps), CallFlush);
            t.buffer == [] && Flat(t.batches) == Names(|t.entries|)
  {
    hide Run, LegalRun, BatchInv, CallInv, WriteInv, Start;
    ConservedRun(max, steps);
    var s := Run(max, steps);
    var t := Next(max, s, CallFlush);
    InOrderStep(max, s, CallFlush);
    FlatInOrder(t.batches);
  }

  /** The state after k callbacks of a written batch in a row. */
  ghost function AfterCallbacks(max: nat, s: State, b: nat, k: nat): (t: State)
    requires b < |s.batches| && BatchOk(s.entries, s.batches[b])
    requires s.batches[b].stage.Written? && s.batches[b].fired == 0 && k <= |s.batches[b].ids|
    ensures t.entries == s.entries && t.wal == s.wal
    ensures |t.batches| == |s.batches| && t.batches[b] == s.batches[b].(fired := k)
  {
    if k == 0 then s else Next(max, AfterCallbacks(max, s, b, k - 1), Callback(b))
  }

  lemma {:induction false} CallbacksMade(max: nat, s: State, b: nat, k: nat)
    requires b < |s.batches| && BatchOk(s.entries, s.batches[b])
    requires s.batches[b].stage.Written? && s.batches[b].fired == 0 && k <= |s.batches[b].ids|
    ensures Valid(s.entries, s.batches[b].ids[..k])
    ensures AfterCallbacks(max, s, b, k).calls
            == s.calls + Callbacks(s.entries, s.batches[b].ids[..k], s.batches[b].stage.ok)
  {
    var ids := s.batches[b].ids;
    if k > 0 {
      assert ids[..k][..k - 1] == ids[..k - 1];
      CallbacksMade(max, s, b, k - 1);
    }
  }

  /** The write step and the callback steps of a batch, taken in a row, do what doFlush does. */
  lemma StepsAreDoFlush(max: nat, s: State, b: nat, ok: bool)
    requires b < |s.batches| && BatchOk(s.entries, s.batches[b]) && s.batches[b].stage.Pending?
    ensures var ids, data := s.batches[b].ids, Data(s.entries, s.batches[b].ids);
            var u := Next(max, s, WriteBatch(b, ok));
            var t := AfterCallbacks(max, u, b, |ids|);
            && Finished(t.batches[b]) && t.batches[b].stage.ok == (ok || data == [])
            && t.wal == s.wal + (if ok && data != [] then [(Some(b), data)] else [])
            && t.calls == s.calls + Callbacks(s.entries, ids, ok || data == [])
  {
    hide Data, Callbacks;
    var ids := s.batches[b].ids;
    assert ids[..|ids|] == ids;
    assert s.wal + [] == s.wal;
    CallbacksMade(max, Next(max, s, WriteBatch(b, ok)), b, |ids|);
  }

  // ---- the order of the WAL ----

  /** A batch that has been taken and whose data is still to be written. */
  ghost predicate Outstanding(s: State, b: nat) {
    && b < |s.batches| && s.batches[b].stage.Pending?
    && Valid(s.entries, s.batches[b].ids) && Data(s.entries, s.batches[b].ids) != []
  }

  /** Two batches compete for the WAL. */
  ghost predicate Contested(s: State) {
    exists b, c :: b < c && Outstanding(s, b) && Outstanding(s, c)
  }

  ghost predicate NeverContested(max: nat, steps: seq<Step>)
    requires LegalRun(max, steps)
  {
    !Contested(Run(max, steps)) && (steps != [] ==> NeverContested(max, steps[..|steps| - 1]))
  }

  /** Batches stand in the WAL in the order they were taken. */
  ghost predicate Ascending(wal: seq<(Option<nat>, seq<byte>)>) {
    forall i, j | 0 <= i < j < |wal| && wal[i].0.Some? && wal[j].0.Some? :: wal[i].0.value < wal[j].0.value
  }

  /** Whatever is still to be written was taken after everything that has been. */
  ghost predicate AscendInv(s: State) {
    && Ascending(s.wal)
    && (forall i | 0 <= i < |s.wal| && s.wal[i].0.Some? :: s.wal[i].0.value < |s.batches|)
    && (forall i, b | 0 <= i < |s.wal| && s.wal[i].0.Some? && Outstanding(s, b) :: s.wal[i].0.value < b)
  }

  lemma OutstandingEnqueue(s: State, entry: Entry, b: nat)
    requires BatchInv(s)
    ensures Outstanding(s.(entries := s.entries + [entry]), b) <==> Outstanding(s, b)
  {
    hide Data;
    if b < |s.batches| {
      assert BatchOk(s.entries, s.batches[b]);
      DataStable(s.entries, [entry], s.batches[b].ids);
    }
  }

  lemma AscendEnqueue(max: nat, s: State, step: Step)
    requires BatchInv(s) && AscendInv(s) && step.Enqueue?
    ensures AscendInv(Next(max, s, step))
  {
    hide Data;
    var t := Next(max, s, step);
    forall b: nat ensures Outstanding(t, b) <==> Outstanding(s, b) { OutstandingEnqueue(s, step.entry, b); }
    hide Outstanding;
  }

  lemma AscendWrite(max: nat, s: State, step: Step)
    requires AscendInv(s) && !Contested(s) && step.WriteBatch? && Enabled(s, step)
    ensures AscendInv(Next(max, s, step))
  {
    hide Data;
    var t, b := Next(max, s, step), step.batch;
    forall c: nat ensures Outstanding(t, c) <==> Outstanding(s, c) && c != b {}
    assert t.wal != s.wal ==> Outstanding(s, b) && t.wal[..|s.wal|] == s.wal;
    hide Outstanding;
    if t.wal != s.wal {
      forall c: nat ensures !Outstanding(t, c) {
        assert c < b || c == b || b < c;
      }
    }
  }

  /** New batches may be taken and callbacks called, but nothing is written. */
  lemma AscendOther(s: State, t: State)
    requires AscendInv(s) && t.wal == s.wal && t.entries == s.entries && |t.batches| >= |s.batches|
    requires forall b | 0 <= b < |s.batches| ::
               t.batches[b].ids == s.batches[b].ids && t.batches[b].stage == s.batches[b].stage
    ensures AscendInv(t)
  {
    hide Data;
    forall b: nat | b < |s.batches| ensures Outstanding(t, b) <==> Outstanding(s, b) {}
    hide Outstanding;
  }

  lemma AscendDirect(s: State, data: seq<byte>)
    requires AscendInv(s)
    ensures AscendInv(s.(wal := s.wal + [(None, data)]))
  {
    hide Data;
    var t := s.(wal := s.wal + [(None, data)]);
    forall b: nat ensures Outstanding(t, b) <==> Outstanding(s, b) {}
    hide Outstanding;
  }

  lemma AscendStep(max: nat, s: State, step: Step)
    requires BatchInv(s) && AscendInv(s) && !Contested(s) && Enabled(s, step)
    ensures AscendInv(Next(max, s, step))
  {
    hide Data, Contested, AscendInv, BatchInv;
    match step
    case Enqueue(_) => AscendEnqueue(max, s, step);
    case WriteBatch(_, _) => AscendWrite(max, s, step);
    case CallFlush => AscendOther(s, Next(max, s, step));
    case SwapBuffer => AscendOther(s, Next(max, s, step));
    case DirectWrite(_) => AscendDirect(s, step.data);
    case _ => AscendOther(s, Next(max, s, step));
  }

  /**
   * While no two batches are outstanding at once, the WAL is in the order of the batches, whoever takes
   * and writes them, and whichever writes fail.
   */
  lemma {:induction false} WalAscends(max: nat, steps: seq<Step>)
    requires LegalRun(max, steps) && NeverContested(max, steps)
    ensures AscendInv(Run(max, steps))
  {
    hide Enabled, Next, Contested, Outstanding;
    if steps != [] {
      hide AscendInv;
      WalAscends(max, steps[..|steps| - 1]);
      BatchInvRun(max, steps[..|steps| - 1]);
      AscendStep(max, Run(max, steps[..|steps| - 1]), steps[|steps| - 1]);
    }
  }

  /** And only then: as soon as two are outstanding, two more steps can put the WAL out of order. */
  lemma ContestedCanSwap(max: nat, steps: seq<Step>) returns (more: seq<Step>)
    requires LegalRun(max, steps) && Contested(Run(max, steps))
    ensures |more| == 2 && more[0].WriteBatch? && more[1].WriteBatch?
    ensures LegalRun(max, steps + more) && !Ascending(Run(max, steps + more).wal)
  {
    hide LegalRun, Run, Data;
    var s := Run(max, steps);
    var b, c :| b < c && Outstanding(s, b) && Outstanding(s, c);
    var first, t := Extend(max, steps, s, WriteBatch(c, true));
    var second, u := Extend(max, first, t, WriteBatch(b, true));
    more := [WriteBatch(c, true), WriteBatch(b, true)];
    assert steps + more == second;
    var n := |s.wal|;
    assert u.wal[n].0 == Some(c) && u.wal[n + 1].0 == Some(b);
  }

  // ---- the plaintext ----

  /** The WAL takes every write, and only from the asynchronous writer. */
  predicate NoFailure(steps: seq<Step>) {
    forall i | 0 <= i < |steps| :: !steps[i].DirectWrite? && (steps[i].WriteBatch? ==> steps[i].ok)
  }

  /** The plaintext handed to the WAL so far. */
  function Text(wal: seq<(Option<nat>, seq<byte>)>): seq<byte> {
    if wal == [] then [] else Text(wal[..|wal| - 1]) + wal[|wal| - 1].1
  }

  lemma TextSnoc(wal: seq<(Option<nat>, seq<byte>)>, e: (Option<nat>, seq<byte>))
    ensures Text(wal + [e]) == Text(wal) + e.1
  {
    assert (wal + [e])[..|wal|] == wal;
  }

  /** A synchronous Write goes behind everything the WAL has been given. */
  lemma DirectWriteLands(max: nat, s: State, data: seq<byte>)
    ensures Text(Next(max, s, DirectWrite(data)).wal) == Text(s.wal) + data
  {
    TextSnoc(s.wal, (None, data));
  }

  /** Batch f is the only one outstanding (or f is past the end), nothing behind it has data, all before it is written. */
  ghost predicate PlainInv(s: State, f: nat) {
    && f <= |s.batches| && (f < |s.batches| ==> Outstanding(s, f))
    && (forall c | Outstanding(s, c) :: c == f)
    && (forall c | f < c < |s.batches| :: Empty(s, c))
    && Start(s.batches, f) <= |s.entries| && Text(s.wal) == Data(s.entries, Names(Start(s.batches, f)))
  }

  ghost predicate Empty(s: State, c: nat)
    requires c < |s.batches|
  {
    Valid(s.entries, s.batches[c].ids) && Data(s.entries, s.batches[c].ids) == []
  }

  lemma {:induction false} DataConcat(entries: seq<Entry>, p: seq<nat>, q: seq<nat>)
    requires Valid(entries, p) && Valid(entries, q)
    ensures Data(entries, p + q) == Data(entries, p) + Data(entries, q)
  {
    if q == [] {
      assert p + q == p;
    } else {
      assert (p + q)[..|p + q| - 1] == p + q[..|q| - 1];
      DataConcat(entries, p, q[..|q| - 1]);
    }
  }

  /** The data of the first batches is that of the ones before and then of the last. */
  lemma DataUpTo(s: State, b: nat)
    requires InOrder(s) && BatchInv(s) && b < |s.batches|
    ensures Start(s.batches, b + 1) <= |s.entries| && Valid(s.entries, s.batches[b].ids)
    ensures Data(s.entries, Names(Start(s.batches, b + 1)))
            == Data(s.entries, Names(Start(s.batches, b))) + Data(s.entries, s.batches[b].ids)
  {
    hide Data;
    assert BatchOk(s.entries, s.batches[b]);
    var m, ids := Start(s.batches, b), s.batches[b].ids;
    if b + 1 < |s.batches| { StartMonotone(s.batches, b + 1, |s.batches|); }
    assert Names(m) + ids == Names(m + |ids|);
    DataConcat(s.entries, Names(m), ids);
  }

  lemma {:induction false} EmptyTail(s: State, f: nat, b: nat)
    requires InOrder(s) && BatchInv(s) && f <= b <= |s.batches| && Start(s.batches, f) <= |s.entries|
    requires forall c | f <= c < |s.batches| :: Empty(s, c)
    ensures Start(s.batches, b) <= |s.entries|
    ensures Data(s.entries, Names(Start(s.batches, b))) == Data(s.entries, Names(Start(s.batches, f)))
    decreases b
  {
    hide Data, InOrder, BatchInv, Start;
    if f < b {
      EmptyTail(s, f, b - 1);
      assert Empty(s, b - 1);
      DataUpTo(s, b - 1);
    }
  }

  lemma PlainKeep(s: State, t: State, f: nat)
    requires PlainInv(s, f) && t.entries == s.entries && t.wal == s.wal && |t.batches| == |s.batches|
    requires forall b | 0 <= b < |s.batches| ::
               && t.batches[b].ids == s.batches[b].ids
               && (t.batches[b].stage == s.batches[b].stage || (Empty(s, b) && b != f))
    ensures PlainInv(t, f)
  {
    hide Data, Text, Start;
    StartSame(t.batches, s.batches, f);
    forall c: nat | Outstanding(t, c) ensures Outstanding(s, c) {}
    forall c | f < c < |t.batches| ensures Empty(t, c) { assert Empty(s, c); }
  }

  lemma PlainEnqueue(max: nat, s: State, step: Step, f: nat)
    requires BatchInv(s) && PlainInv(s, f) && step.Enqueue?
    ensures PlainInv(Next(max, s, step), f)
  {
    hide Data, Text, Start, BatchOk;
    var t := Next(max, s, step);
    forall b: nat ensures Outstanding(t, b) <==> Outstanding(s, b) { OutstandingEnqueue(s, step.entry, b); }
    hide Outstanding;
    forall c | f < c < |t.batches| ensures Empty(t, c) {
      assert Empty(s, c);
      DataStable(s.entries, [step.entry], s.batches[c].ids);
    }
    DataStable(s.entries, [step.entry], Names(Start(s.batches, f)));
  }

  lemma PlainTake(s: State, t: State, f: nat) returns (g: nat)
    requires InOrder(s) && BatchInv(s) && PlainInv(s, f) && s.buffer != [] && !Contested(t)
    requires t.batches == TakeBuffer(s).batches && t.wal == s.wal && t.entries == s.entries
    requires InOrder(t) && BatchInv(t)
    ensures PlainInv(t, g)
  {
    hide Data, Text, Start;
    var n := |s.batches|;
    StartSame(t.batches, s.batches, f);
    assert BatchOk(t.entries, t.batches[n]);
    forall c: nat | c < n
      ensures Outstanding(t, c) <==> Outstanding(s, c)
      ensures Empty(t, c) <==> Empty(s, c)
    {}
    if f < n {
      g := f;
      assert !Outstanding(t, n);
    } else if Outstanding(t, n) {
      g := n;
    } else {
      g := n + 1;
      DataUpTo(t, n);
      var data := Data(t.entries, Names(Start(t.batches, n)));
      assert data + [] == data;
    }
  }

  lemma PlainWrite(max: nat, s: State, step: Step, f: nat) returns (g: nat)
    requires InOrder(s) && BatchInv(s) && PlainInv(s, f) && step.WriteBatch? && step.ok && Enabled(s, step)
    ensures PlainInv(Next(max, s, step), g)
  {
    hide Data, Text, Start, InOrder, BatchInv;
    var t, b := Next(max, s, step), step.batch;
    if b == f {
      g := |s.batches|;
      assert forall c: nat | c != b :: Outstanding(t, c) ==> Outstanding(s, c);
      DataUpTo(s, f);
      EmptyTail(s, f + 1, g);
      StartSame(t.batches, s.batches, g);
      TextSnoc(s.wal, (Some(f), Data(s.entries, s.batches[f].ids)));
    } else {
      g := f;
      assert Empty(s, b) by { assert !Outstanding(s, b); }
      PlainKeep(s, t, f);
    }
  }

  lemma PlainStep(max: nat, s: State, step: Step, f: nat) returns (g: nat)
    requires InOrder(s) && BatchInv(s) && PlainInv(s, f) && Enabled(s, step)
    requires !step.DirectWrite? && (step.WriteBatch? ==> step.ok) && !Contested(Next(max, s, step))
    ensures PlainInv(Next(max, s, step), g)
  {
    hide Data, PlainInv, InOrder, BatchInv, Contested, Empty;
    InOrderStep(max, s, step);
    BatchInvStep(max, s, step);
    var t := Next(max, s, step);
    g := f;
    match step
    case WriteBatch(_, _) => g := PlainWrite(max, s, step, f);
    case Enqueue(_) => PlainEnqueue(max, s, step, f);
    case CallFlush => if s.buffer != [] { g := PlainTake(s, t, f); } else { PlainKeep(s, t, f); }
    case SwapBuffer => if s.buffer != [] { g := PlainTake(s, t, f); } else { PlainKeep(s, t, f); }
    case _ => PlainKeep(s, t, f);
  }

  lemma {:induction false} PlainRun(max: nat, steps: seq<Step>) returns (f: nat)
    requires LegalRun(max, steps) && NeverContested(max, steps) && NoFailure(steps)
    ensures PlainInv(Run(max, steps), f)
  {
    hide Enabled, Next, InOrder, BatchInv, CallInv, WriteInv, Contested;
    if steps == [] {
      f := 0;
      assert Names(0) == [];
    } else {
      hide PlainInv;
      var s, step := Run(max, steps[..|steps| - 1]), steps[|steps| - 1];
      ConservedRun(max, steps[..|steps| - 1]);
      f := PlainRun(max, steps[..|steps| - 1]);
      f := PlainStep(max, s, step, f);
    }
  }

  /** Close is seen: once flushLoop has taken its last batch, nothing enqueued before Close is left. */
  ghost predicate CloseInv(s: State) {
    && s.closedAt <= |s.entries|
    && ((s.pc.Swap? || s.pc.Flushing?) && s.pc.why.ByStop? ==> s.stopped)
    && (s.pc.Done? ==> s.stopped)
    && (s.pc.Done? || (s.pc.Flushing? && s.pc.why.ByStop?) ==> Start(s.batches, |s.batches|) >= s.closedAt)
  }

  lemma TakenAll(s: State)
    requires InOrder(s)
    ensures Start(TakeBuffer(s).batches, |s.batches| + 1) == |s.entries|
  {
    StartSame(TakeBuffer(s).batches, s.batches, |s.batches|);
  }

  lemma CloseInvStep(max: nat, s: State, step: Step)
    requires InOrder(s) && CloseInv(s) && Enabled(s, step)
    ensures CloseInv(Next(max, s, step))
  {
    hide Data, Start;
    var t := Next(max, s, step);
    match step
    case CallFlush => TakenAll(s);
    case SwapBuffer => TakenAll(s);
    case WriteBatch(_, _) => StartSame(t.batches, s.batches, |s.batches|);
    case Callback(_) => StartSame(t.batches, s.batches, |s.batches|);
    case _ =>
  }

  lemma {:induction false} CloseInvRun(max: nat, steps: seq<Step>)
    requires LegalRun(max, steps)
    ensures CloseInv(Run(max, steps))
  {
    hide Enabled, Next, InOrder, BatchInv, CallInv, WriteInv;
    if steps != [] {
      hide CloseInv;
      ConservedRun(max, steps[..|steps| - 1]);
      CloseInvRun(max, steps[..|steps| - 1]);
      CloseInvStep(max, Run(max, steps[..|steps| - 1]), steps[|steps| - 1]);
    }
  }

  /**
   * While no two batches are outstanding at once and no write fails, whoever flushes, the plaintext
   * handed to the WAL is the concatenation, in order, of the data of the first n entries: all that are
   * in batches if none is outstanding, and then, once flushLoop has ended, all enqueued before Close.
   */
  lemma InOrderPlaintext(max: nat, steps: seq<Step>) returns (n: nat)
    requires LegalRun(max, steps) && NeverContested(max, steps) && NoFailure(steps)
    ensures var s := Run(max, steps);
            && n <= |s.entries| && Text(s.wal) == Data(s.entries, Names(n))
            && ((forall b :: !Outstanding(s, b)) ==>
                  n + |s.buffer| == |s.entries| && (s.pc.Done? ==> n >= s.closedAt))
  {
    hide Run, LegalRun, NeverContested, NoFailure, Data, Text, Start, Outstanding, InOrder;
    hide BatchInv, CallInv, WriteInv;
    var f := PlainRun(max, steps);
    CloseInvRun(max, steps);
    ConservedRun(max, steps);
    Counted(Run(max, steps));
    n := Start(Run(max, steps).batches, f);
  }

  lemma Counted(s: State)
    requires InOrder(s)
    ensures Start(s.batches, |s.batches|) + |s.buffer| == |s.entries|
  {}

  // ---- flushLoop alone ----

  /** Without explicit flushes batches are written and finished one at a time. */
  ghost predicate OneAtATime(s: State) {
    && (forall b | 0 <= b < |s.batches| - 1 :: Finished(s.batches[b]))
    && (s.pc.Flushing? ==> s.pc.batch == |s.batches| - 1)
    && (!s.pc.Flushing? && s.batches != [] ==> Finished(s.batches[|s.batches| - 1]))
  }

  lemma OneAtATimeStep(max: nat, s: State, step: Step)
    requires OneAtATime(s) && Enabled(s, step) && !step.CallFlush?
    ensures OneAtATime(Next(max, s, step))
  {
    hide Data;
  }

  lemma OneUncontested(s: State)
    requires OneAtATime(s)
    ensures !Contested(s) && (!s.pc.Flushing? ==> forall b :: !Outstanding(s, b))
  {
    hide Data;
  }

  predicate NoFlush(steps: seq<Step>) { forall i | 0 <= i < |steps| :: !steps[i].CallFlush? }

  lemma {:induction false} LoopUncontested(max: nat, steps: seq<Step>)
    requires LegalRun(max, steps) && NoFlush(steps)
    ensures OneAtATime(Run(max, steps)) && NeverContested(max, steps)
  {
    hide Enabled, Next, Contested;
    if steps != [] {
      hide OneAtATime;
      LoopUncontested(max, steps[..|steps| - 1]);
      OneAtATimeStep(max, Run(max, steps[..|steps| - 1]), steps[|steps| - 1]);
    }
    OneUncontested(Run(max, steps));
  }

  /** So with flushLoop alone, and no write error, the plaintext is in order, and after Close complete. */
  lemma LoopPlaintext(max: nat, steps: seq<Step>) returns (n: nat)
    requires LegalRun(max, steps) && NoFlush(steps) && NoFailure(steps)
    ensures var s := Run(max, steps);
            && n <= |s.entries| && Text(s.wal) == Data(s.entries, Names(n))
            && (s.pc.Done? ==> n >= s.closedAt)
  {
    LoopUncontested(max, steps);
    OneUncontested(Run(max, steps));
    hide Run, LegalRun, NeverContested, NoFailure, Data, Text, Outstanding, OneAtATime, Contested;
    n := InOrderPlaintext(max, steps);
  }

  /** flushLoop has taken a batch of one entry and another entry has come in. */
  lemma OneTaken(e: Entry, f: Entry) returns (steps: seq<Step>, s: State)
    ensures LegalRun(2, steps) && Run(2, steps) == s
    ensures s.entries == [e, f] && s.buffer == [1] && s.batches == [Batch([0], Pending, 0)] && s.wal == []
  {
    hide Run, LegalRun, Data;
    s := Initially(2);
    steps, s := Extend(2, [], s, Enqueue(e));
    assert s.buffer == [0];
    steps, s := Extend(2, steps, s, Fire);
    steps, s := Extend(2, steps, s, TakeTimer);
    steps, s := Extend(2, steps, s, SwapBuffer);
    assert s.batches == [Batch([0], Pending, 0)];
    steps, s := Extend(2, steps, s, Enqueue(f));
    assert s.entries == [e, f];
  }

  /** An explicit Flush can overtake flushLoop: its batch is younger but may be written first. */
  lemma FlushOvertakes(x: byte, y: byte) returns (steps: seq<Step>)
    ensures LegalRun(2, steps)
    ensures var s := Run(2, steps); s.entries == [Entry([x], false), Entry([y], false)] && Text(s.wal) == [y, x]
  {
    hide Run, LegalRun, Data, Text;
    var e, f, s := Entry([x], false), Entry([y], false), INITIAL;
    steps, s := OneTaken(e, f);
    OneEntry([e, f], 1);
    OneEntry([e, f], 0);
    steps, s := Extend(2, steps, s, CallFlush);
    assert s.batches == [Batch([0], Pending, 0), Batch([1], Pending, 0)];
    steps, s := Extend(2, steps, s, WriteBatch(1, true));
    assert s.wal == [(Some(1), [y])];
    steps, s := Extend(2, steps, s, WriteBatch(0, true));
    assert s.wal == [(Some(1), [y])] + [(Some(0), [x])];
    TextSnoc([(Some(1), [y])], (Some(0), [x]));
    TextOne((Some(1), [y]));
  }

  lemma TextOne(e: (Option<nat>, seq<byte>))
    ensures Text([e]) == e.1
  {
    assert [e][..0] == [];
    assert Text([]) == [];
  }

  lemma Initially(max: nat) returns (s: State)
    ensures LegalRun(max, []) && Run(max, []) == s == INITIAL
  {
    s := INITIAL;
  }

  lemma Extend(max: nat, steps: seq<Step>, s: State, step: Step) returns (more: seq<Step>, t: State)
    requires LegalRun(max, steps) && Run(max, steps) == s && Enabled(s, step)
    ensures more == steps + [step] && LegalRun(max, more) && Run(max, more) == t == Next(max, s, step)
  {
    RunSnoc(max, steps, step);
    more, t := steps + [step], Next(max, s, step);
  }

  lemma OneEntry(entries: seq<Entry>, i: nat)
    requires i < |entries|
    ensures Valid(entries, [i]) && Data(entries, [i]) == entries[i].data
  {
    assert [i][..0] == [];
    assert Data(entries, []) == [];
  }
}
