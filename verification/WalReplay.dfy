/**
 * Replaying the WAL through the state machine, against the filter of the process that is running:
 * when the replay stays below it, over every run of applies, crashes, restarts and restores.
 */
module WalReplay {
  import opened Bytes
  import opened HashIndices
  import opened Counters
  import opened CountingFilter
  import opened Fsm
  import opened FsmRuns

  /** What happens to the filter: an entry is applied, a new or restored filter replaces it, the process ends. */
  datatype Event = Enter(entry: Entry) | Reset(filter: Filter) | Die

  /** The filter of the running process, if there is one, and the WAL records written so far by all of them. */
  datatype Live = Live(filter: Option<Filter>, records: seq<seq<byte>>)

  function LiveStep(json: Json, hash: Hash32, s: Live, ev: Event): Live
    requires ev.Enter? ==> s.filter.Some? && s.filter.value.Usable()
  {
    match ev
    case Enter(e) =>
      var a := ApplyEntry(json, hash, s.filter.value, e.data);
      Live(Some(a.filter), if a.outcome == Nil then s.records + [RecordOf(json, e)] else s.records)
    case Reset(g) => s.(filter := Some(g))
    case Die => s.(filter := None)
  }

  /** Entries are applied by a running process; every filter is as large as the one the replay starts from. */
  ghost predicate LegalEvents(json: Json, hash: Hash32, f: Filter, events: seq<Event>)
    decreases |events|, 0
  {
    events != [] ==>
      var before, ev := events[..|events| - 1], events[|events| - 1];
      && LegalEvents(json, hash, f, before)
      && (ev.Enter? ==> LiveRun(json, hash, f, before).filter.Some?)
      && (ev.Reset? ==> ev.filter.Usable() && ev.filter.m == f.m && ev.filter.k == f.k)
  }

  ghost function LiveRun(json: Json, hash: Hash32, f: Filter, events: seq<Event>): (r: Live)
    requires LegalEvents(json, hash, f, events)
    ensures r.filter.Some? ==> r.filter.value.Usable() && r.filter.value.m == f.m && r.filter.value.k == f.k
    decreases |events|, 1
  {
    if events == [] then Live(None, [])
    else LiveStep(json, hash, LiveRun(json, hash, f, events[..|events| - 1]), events[|events| - 1])
  }

  /** Every replayed record is applied without error. */
  predicate Clean(json: Json, hash: Hash32, f: Filter, records: seq<seq<byte>>)
    requires f.Usable()
  {
    records != [] ==>
      var n := |records| - 1;
      && Clean(json, hash, f, records[..n])
      && ApplyEntry(json, hash, Fold(json, hash, f, records[..n]), records[n]).outcome == Nil
  }

  ghost predicate Below(c: Counters, d: Counters) { |c| == |d| && forall j | 0 <= j < |c| :: c[j] <= d[j] }

  /** A smaller filter accepts whatever the larger one accepts, and stays smaller. */
  lemma PerformBelow(hash: Hash32, f: Filter, g: Filter, cmd: Command)
    requires f.Usable() && g.Usable() && f.m == g.m && f.k == g.k && Below(f.counters, g.counters)
    ensures Below(f.counters, Perform(hash, g, cmd).filter.counters) || Perform(hash, g, cmd).outcome == Nil
    ensures Perform(hash, g, cmd).outcome == Nil ==>
              && Perform(hash, f, cmd).outcome == Nil
              && Below(Perform(hash, f, cmd).filter.counters, Perform(hash, g, cmd).filter.counters)
  {
    hide AddAt, RemoveAt;
    var idx := Positions(hash, f.m, f.k, cmd.item);
    AddAtEffect(f.counters, idx);
    AddAtEffect(g.counters, idx);
    RemoveAtEffect(f.counters, idx);
    RemoveAtEffect(g.counters, idx);
  }

  /** A WAL record takes the FSMCommand fallback and does what the command did. */
  lemma RecordReplays(json: Json, hash: Hash32, f: Filter, g: Filter, e: Entry)
    requires json.Lawful() && f.Usable() && g.Usable() && ApplyEntry(json, hash, g, e.data).outcome == Nil
    ensures ParseEntry(json, e.data).Some?
    ensures json.parseCommand(RecordOf(json, e)) == None
    ensures ApplyEntry(json, hash, f, RecordOf(json, e)) == Perform(hash, f, ParseEntry(json, e.data).value)
  {
    hide AddAt, RemoveAt, Positions;
    var cmd := ParseEntry(json, e.data).value;
    assert Known(cmd.kind);
  }

  lemma FoldSnoc(json: Json, hash: Hash32, f: Filter, records: seq<seq<byte>>, r: seq<byte>)
    requires f.Usable()
    ensures Fold(json, hash, f, records + [r]) == ApplyEntry(json, hash, Fold(json, hash, f, records), r).filter
    ensures Clean(json, hash, f, records + [r]) <==>
              Clean(json, hash, f, records) && ApplyEntry(json, hash, Fold(json, hash, f, records), r).outcome == Nil
  {
    hide ApplyEntry;
    assert (records + [r])[..|records|] == records;
  }

  // ---- when the replay stays below ----

  /** The replay of the records is nowhere above the running process. */
  ghost predicate BelowLive(json: Json, hash: Hash32, f: Filter, s: Live)
    requires f.Usable()
  {
    s.filter.Some? ==> Below(Fold(json, hash, f, s.records).counters, s.filter.value.counters)
  }

  ghost predicate AlwaysBelow(json: Json, hash: Hash32, f: Filter, events: seq<Event>)
    requires f.Usable() && LegalEvents(json, hash, f, events)
  {
    && BelowLive(json, hash, f, LiveRun(json, hash, f, events))
    && (events != [] ==> AlwaysBelow(json, hash, f, events[..|events| - 1]))
  }

  /** Every new or restored filter covers what the WAL holds at that moment. */
  ghost predicate Covered(json: Json, hash: Hash32, f: Filter, events: seq<Event>)
    requires f.Usable() && LegalEvents(json, hash, f, events)
  {
    events != [] ==>
      var before, ev := events[..|events| - 1], events[|events| - 1];
      && Covered(json, hash, f, before)
      && (ev.Reset? ==>
            Below(Fold(json, hash, f, LiveRun(json, hash, f, before).records).counters, ev.filter.counters))
  }

  lemma PerformUnchanged(hash: Hash32, f: Filter, cmd: Command)
    requires f.Usable()
    ensures Perform(hash, f, cmd).outcome == UnknownType ==> Perform(hash, f, cmd).filter == f
    ensures Perform(hash, f, cmd).outcome != ParseError
  {}

  lemma EnterBelow(json: Json, hash: Hash32, f: Filter, s: Live, e: Entry)
    requires json.Lawful() && f.Usable() && s.filter.Some? && s.filter.value.Usable()
    requires s.filter.value.m == f.m && s.filter.value.k == f.k
    requires Clean(json, hash, f, s.records) && BelowLive(json, hash, f, s)
    ensures var t := LiveStep(json, hash, s, Enter(e));
            Clean(json, hash, f, t.records) && BelowLive(json, hash, f, t)
  {
    hide Fold, Clean, Perform, Json.Lawful;
    var r := Fold(json, hash, f, s.records);
    if ParseEntry(json, e.data).Some? {
      var cmd := ParseEntry(json, e.data).value;
      PerformBelow(hash, r, s.filter.value, cmd);
      if Perform(hash, s.filter.value, cmd).outcome == Nil {
        RecordReplays(json, hash, r, s.filter.value, e);
        FoldSnoc(json, hash, f, s.records, RecordOf(json, e));
      }
    }
  }

  /**
   * In every run of applies, crashes, restarts and restores, the replay of the WAL stays below the
   * running process throughout exactly when every new or restored filter covers what the WAL holds;
   * and then it never overflows.
   */
  lemma {:induction false} ReplayBelowIff(json: Json, hash: Hash32, f: Filter, events: seq<Event>)
    requires json.Lawful() && f.Usable() && LegalEvents(json, hash, f, events)
    ensures AlwaysBelow(json, hash, f, events) <==> Covered(json, hash, f, events)
    ensures Covered(json, hash, f, events) ==> Clean(json, hash, f, LiveRun(json, hash, f, events).records)
  {
    hide Json.Lawful, Fold, Below;
    if events != [] {
      var before, ev := events[..|events| - 1], events[|events| - 1];
      ReplayBelowIff(json, hash, f, before);
      var s := LiveRun(json, hash, f, before);
      match ev
      case Enter(e) =>
        if Covered(json, hash, f, before) {
          assert BelowLive(json, hash, f, s);
          EnterBelow(json, hash, f, s, e);
        }
      case Reset(g) =>
      case Die =>
    }
  }

  /** The running filter came from replaying the WAL (or from f with an empty one), and no add has overflowed since. */
  ghost predicate Exact(json: Json, hash: Hash32, f: Filter, events: seq<Event>)
    requires f.Usable() && LegalEvents(json, hash, f, events)
  {
    events != [] ==>
      var before, ev := events[..|events| - 1], events[|events| - 1];
      var s := LiveRun(json, hash, f, before);
      match ev
      case Enter(e) => Exact(json, hash, f, before) && ApplyEntry(json, hash, s.filter.value, e.data).outcome != Overflow
      case Reset(g) => g == Fold(json, hash, f, s.records)
      case Die => true
  }

  /** Then the replay gives that very filter. */
  lemma {:induction false} ReplayExact(json: Json, hash: Hash32, f: Filter, events: seq<Event>)
    requires json.Lawful() && f.Usable() && LegalEvents(json, hash, f, events) && Exact(json, hash, f, events)
    ensures var s := LiveRun(json, hash, f, events);
            s.filter.Some? ==> Fold(json, hash, f, s.records) == s.filter.value
  {
    hide Json.Lawful, Fold, Perform;
    if events != [] {
      var before, ev := events[..|events| - 1], events[|events| - 1];
      var s := LiveRun(json, hash, f, before);
      if ev.Enter? {
        ReplayExact(json, hash, f, before);
        EnterExact(json, hash, f, s, ev.entry);
      }
    }
  }

  lemma EnterExact(json: Json, hash: Hash32, f: Filter, s: Live, e: Entry)
    requires json.Lawful() && f.Usable() && s.filter.Some? && s.filter.value.Usable()
    requires Fold(json, hash, f, s.records) == s.filter.value
    requires ApplyEntry(json, hash, s.filter.value, e.data).outcome != Overflow
    ensures var t := LiveStep(json, hash, s, Enter(e)); t.filter == Some(Fold(json, hash, f, t.records))
  {
    hide Fold, Perform, Json.Lawful;
    var g := s.filter.value;
    if ParseEntry(json, e.data).Some? {
      PerformUnchanged(hash, g, ParseEntry(json, e.data).value);
      if ApplyEntry(json, hash, g, e.data).outcome == Nil {
        RecordReplays(json, hash, g, g, e);
        FoldSnoc(json, hash, f, s.records, RecordOf(json, e));
      }
    }
  }

  // ---- one process ----

  /** A process that starts with f and applies entries. */
  function Session(f: Filter, entries: seq<Entry>): seq<Event> {
    if entries == [] then [Reset(f)] else Session(f, entries[..|entries| - 1]) + [Enter(entries[|entries| - 1])]
  }

  lemma {:induction false} SessionCovered(json: Json, hash: Hash32, f: Filter, entries: seq<Entry>)
    requires f.Usable()
    ensures LegalEvents(json, hash, f, Session(f, entries)) && Covered(json, hash, f, Session(f, entries))
    ensures LiveRun(json, hash, f, Session(f, entries)).filter.Some?
  {
    var events := Session(f, entries);
    if entries == [] {
      assert events[..0] == [];
      assert Fold(json, hash, f, []) == f;
    } else {
      SessionCovered(json, hash, f, entries[..|entries| - 1]);
      assert events[..|events| - 1] == Session(f, entries[..|entries| - 1]);
    }
  }

  /** Without restarts the replay never overflows and stays below the live filter, whatever is applied. */
  lemma ReplayBelowLive(json: Json, hash: Hash32, f: Filter, entries: seq<Entry>)
    requires json.Lawful() && f.Usable()
    ensures LegalEvents(json, hash, f, Session(f, entries))
    ensures var s := LiveRun(json, hash, f, Session(f, entries));
            && s.filter.Some? && Clean(json, hash, f, s.records)
            && Below(Fold(json, hash, f, s.records).counters, s.filter.value.counters)
            && (Exact(json, hash, f, Session(f, entries)) ==> Fold(json, hash, f, s.records) == s.filter.value)
  {
    hide Json.Lawful, Fold, Clean, Below, Session, Covered, LegalEvents, LiveRun, Exact;
    SessionCovered(json, hash, f, entries);
    ReplayBelowIff(json, hash, f, Session(f, entries));
    if Exact(json, hash, f, Session(f, entries)) { ReplayExact(json, hash, f, Session(f, entries)); }
  }

  // ---- re-applying after a restart overshoots ----

  lemma EventsSnoc(json: Json, hash: Hash32, f: Filter, events: seq<Event>, ev: Event)
    requires LegalEvents(json, hash, f, events)
    requires ev.Enter? ==> LiveRun(json, hash, f, events).filter.Some?
    requires ev.Reset? ==> ev.filter.Usable() && ev.filter.m == f.m && ev.filter.k == f.k
    ensures LegalEvents(json, hash, f, events + [ev])
    ensures LiveRun(json, hash, f, events + [ev]) == LiveStep(json, hash, LiveRun(json, hash, f, events), ev)
  {
    hide LiveStep;
    assert (events + [ev])[..|events|] == events;
  }

  lemma EventsLast(json: Json, hash: Hash32, f: Filter, events: seq<Event>, ev: Event)
    requires LegalEvents(json, hash, f, events + [ev])
    ensures LegalEvents(json, hash, f, events) && (ev.Enter? ==> LiveRun(json, hash, f, events).filter.Some?)
    ensures LiveRun(json, hash, f, events + [ev]) == LiveStep(json, hash, LiveRun(json, hash, f, events), ev)
  {
    hide LiveStep;
    assert (events + [ev])[..|events|] == events;
  }

  /** Adding once more does not stay below, if it succeeds. */
  lemma AddedTwice(hash: Hash32, f: Filter, cmd: Command)
    requires f.Usable() && f.k >= 1 && cmd.kind == ADD && Perform(hash, f, cmd).outcome == Nil
    ensures !Below(Perform(hash, f, cmd).filter.counters, f.counters)
  {
    hide AddAt;
    var idx := Positions(hash, f.m, f.k, cmd.item);
    AddAtEffect(f.counters, idx);
    OccPositive(idx, 0);
    assert Perform(hash, f, cmd).filter.counters[idx[0]] > f.counters[idx[0]];
  }

  /**
   * What a restart does: the new process begins with the same filter and applies the same log, so the
   * WAL gets the entry a second time. For every filter and every add that succeeds in it, the replay
   * then overflows or ends above the running process.
   */
  lemma ReappliedAdd(json: Json, hash: Hash32, f: Filter, e: Entry, again: Entry) returns (events: seq<Event>)
    requires json.Lawful() && f.Usable() && f.k >= 1 && again.data == e.data
    requires ParseEntry(json, e.data).Some? && ParseEntry(json, e.data).value.kind == ADD
    requires ApplyEntry(json, hash, f, e.data).outcome == Nil
    ensures events == [Reset(f), Enter(e), Die, Reset(f), Enter(again)] && LegalEvents(json, hash, f, events)
    ensures var s := LiveRun(json, hash, f, events);
            !(Clean(json, hash, f, s.records) && BelowLive(json, hash, f, s))
  {
    hide LegalEvents, LiveRun, Fold, Clean, Perform, Json.Lawful;
    events := [];
    assert LegalEvents(json, hash, f, []) && LiveRun(json, hash, f, []) == Live(None, []) by { NoEvents(json, hash, f); }
    EventsSnoc(json, hash, f, events, Reset(f));
    events := events + [Reset(f)];
    EventsSnoc(json, hash, f, events, Enter(e));
    events := events + [Enter(e)];
    EventsSnoc(json, hash, f, events, Die);
    events := events + [Die];
    EventsSnoc(json, hash, f, events, Reset(f));
    events := events + [Reset(f)];
    EventsSnoc(json, hash, f, events, Enter(again));
    events := events + [Enter(again)];
    var cmd, r, r' := ParseEntry(json, e.data).value, RecordOf(json, e), RecordOf(json, again);
    var s := LiveRun(json, hash, f, events);
    var g := Perform(hash, f, cmd).filter;
    assert s == Live(Some(g), [] + [r] + [r']) && [] + [r] == [r];
    FoldSnoc(json, hash, f, [], r);
    FoldSnoc(json, hash, f, [r], r');
    FoldEmpty(json, hash, f);
    RecordReplays(json, hash, f, f, e);
    assert Fold(json, hash, f, [r]) == g;
    RecordReplays(json, hash, g, f, again);
    if Perform(hash, g, cmd).outcome == Nil { AddedTwice(hash, g, cmd); }
  }

  lemma NoEvents(json: Json, hash: Hash32, f: Filter)
    ensures LegalEvents(json, hash, f, []) && LiveRun(json, hash, f, []) == Live(None, [])
  {}
}
