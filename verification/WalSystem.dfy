/**
 * The state machine and its WAL together: processes start, apply log entries, restore snapshots, crash
 * at any byte of a WAL write or in the middle of a roll, and start again; and what replaying
 * the directory gives in the end.
 */
module WalSystem {
  import opened Bytes
  import opened HashIndices
  import opened Counters
  import opened CountingFilter
  import opened Encryptor
  import opened WalFormat
  import opened Wal
  import WalRuns
  import opened WalRecovery
  import opened Fsm
  import opened FsmRuns
  import opened WalReplay

  /** Boot is a new process with a key ring and a filter; the others happen to the running one. */
  datatype Action =
    | Boot(ring: Keyring, filter: Filter)
    | Restore(filter: Filter)
    | Apply(entry: Entry, nonce: Nonce, expired: bool)
    | CrashInApply(entry: Entry, nonce: Nonce, expired: bool, kept: nat)
    | CrashInRoll(left: nat)
    | Stop
    | Rotate(key: Key)
    | Reload(key: Key, version: u32)

  /** What an action does to the filter. */
  function EventOf(action: Action): seq<Event> {
    match action
    case Boot(_, g) => [Reset(g)]
    case Restore(g) => [Reset(g)]
    case Apply(e, _, _) => [Enter(e)]
    case CrashInApply(_, _, _, _) => [Die]
    case CrashInRoll(_) => [Die]
    case Stop => [Die]
    case _ => []
  }

  function Events(actions: seq<Action>): seq<Event> {
    if actions == [] then [] else Events(actions[..|actions| - 1]) + EventOf(actions[|actions| - 1])
  }

  /** `start` is the filter replays begin with. */
  datatype System = System(aead: Aead, cfg: Config, ring: Keyring, json: Json, hash: Hash32, start: Filter) {

    ghost predicate Lawful() { aead.Lawful() && json.Lawful() && start.Usable() }

    /** Apply writes to the WAL. */
    ghost predicate Writes(live: Live, e: Entry) {
      && live.filter.Some? && live.filter.value.Usable()
      && ApplyEntry(json, hash, live.filter.value, e.data).outcome == Nil
    }

    /** What an action does to the WAL. */
    ghost function WalStepOf(live: Live, action: Action): seq<WalRuns.Step> {
      match action
      case Boot(ring, _) => [WalRuns.Start(ring)]
      case Restore(_) => []
      case Apply(e, nonce, expired) =>
        if Writes(live, e) then [WalRuns.Write(nonce, RecordOf(json, e), expired)] else []
      case CrashInApply(e, nonce, expired, kept) =>
        if Writes(live, e) then [WalRuns.CrashInWrite(nonce, RecordOf(json, e), expired, kept)] else [WalRuns.Stop]
      case CrashInRoll(left) => [WalRuns.CrashInRoll(left)]
      case Stop => [WalRuns.Stop]
      case Rotate(key) => [WalRuns.Rotate(key)]
      case Reload(key, version) => [WalRuns.Reload(key, version)]
    }

    ghost predicate LegalFilter(actions: seq<Action>) { LegalEvents(json, hash, start, Events(actions)) }

    ghost function LiveAfter(actions: seq<Action>): Live
      requires LegalFilter(actions)
    {
      LiveRun(json, hash, start, Events(actions))
    }

    /** Legal throughout for the filter, and a snapshot is restored by a running process. */
    ghost predicate LegalPrefixes(actions: seq<Action>) {
      && LegalFilter(actions)
      && (actions != [] ==>
            var before, action := actions[..|actions| - 1], actions[|actions| - 1];
            LegalPrefixes(before) && (action.Restore? ==> LiveAfter(before).filter.Some?))
    }

    ghost function WalSteps(actions: seq<Action>): seq<WalRuns.Step>
      requires LegalPrefixes(actions)
    {
      if actions == [] then []
      else
        var before := actions[..|actions| - 1];
        WalSteps(before) + WalStepOf(LiveAfter(before), actions[|actions| - 1])
    }

    /** A run the environment can produce. */
    ghost predicate Legal(actions: seq<Action>) {
      LegalPrefixes(actions) && LegalRun(aead, cfg, ring, WalSteps(actions))
    }

    ghost function Disk(actions: seq<Action>): WalRuns.State
      requires Legal(actions)
    {
      Run(aead, cfg, ring, WalSteps(actions))
    }

    lemma {:induction false} LegalBefore(steps: seq<WalRuns.Step>, more: seq<WalRuns.Step>)
      requires |more| <= 1 && LegalRun(aead, cfg, ring, steps + more)
      ensures LegalRun(aead, cfg, ring, steps)
      ensures Completed(aead, cfg, ring, steps + more) ==
              Completed(aead, cfg, ring, steps)
              + if more != [] && more[0].Write?
                then [WalRuns.NewRecord(Run(aead, cfg, ring, steps).ring, more[0].nonce, more[0].plain)] else []
    {
      if more == [] {
        assert steps + more == steps;
        assert Completed(aead, cfg, ring, steps) + [] == Completed(aead, cfg, ring, steps);
      } else {
        hide WalRuns.Legal, WalRuns.Exec;
        assert (steps + more)[..|steps + more| - 1] == steps && (steps + more)[|steps|] == more[0];
      }
    }

    /** The completed WAL writes are the records of all processes, in order. */
    lemma {:induction false} RecordsMatch(actions: seq<Action>)
      requires Legal(actions)
      ensures Plains(Completed(aead, cfg, ring, WalSteps(actions))) == LiveAfter(actions).records
    {
      hide LegalRun, Run, Completed, LegalEvents, LiveRun;
      if actions == [] {
        NothingYet();
      } else {
        var before, action := actions[..|actions| - 1], actions[|actions| - 1];
        assert LegalPrefixes(before) && before + [action] == actions;
        var live := LiveAfter(before);
        LegalBefore(WalSteps(before), WalStepOf(live, action));
        RecordsMatch(before);
        LiveGrows(before, action);
        PlainsSnoc(Completed(aead, cfg, ring, WalSteps(before)), WalStepOf(live, action));
      }
    }

    lemma NothingYet()
      requires Legal([])
      ensures Plains(Completed(aead, cfg, ring, WalSteps([]))) == LiveAfter([]).records
    {
      assert WalSteps([]) == [] && Events([]) == [];
    }

    lemma PlainsSnoc(done: seq<Rec>, more: seq<WalRuns.Step>)
      requires |more| <= 1
      ensures forall r: Rec :: more != [] && more[0].Write? && r.plain == more[0].plain ==>
                Plains(done + [r]) == Plains(done) + [more[0].plain]
      ensures Plains(done + []) == Plains(done)
    {
      assert done + [] == done;
    }

    /** The records grow by what the WAL is given. */
    lemma LiveGrows(before: seq<Action>, action: Action)
      requires LegalFilter(before) && LegalFilter(before + [action])
      ensures var live, more := LiveAfter(before), WalStepOf(LiveAfter(before), action);
              LiveAfter(before + [action]).records
              == live.records + if more != [] && more[0].Write? then [more[0].plain] else []
    {
      hide ApplyEntry, LegalEvents, LiveRun;
      var events, ev := Events(before), EventOf(action);
      assert (before + [action])[..|before|] == before;
      var live := LiveAfter(before);
      assert live.records + [] == live.records;
      if ev == [] {
        assert events + ev == events;
      } else {
        assert ev == [ev[0]];
        EventsLast(json, hash, start, events, ev[0]);
      }
    }

    /**
     * From disk to filter. After any run of processes that keep their keys, with fewer than maxFiles files,
     * ReadAll returns the records of all processes; and if every new or restored filter covered what the
     * WAL held at that moment, which is exactly when the replay has stayed below the running
     * filter throughout, replaying what is read never overflows and stays below it.
     */
    lemma RecoverAndReplay(actions: seq<Action>)
      requires Lawful() && Legal(actions) && KeysKept(aead, cfg, ring, WalSteps(actions))
      requires |Disk(actions).disk| < cfg.maxFiles
      ensures var s, live, events := Disk(actions), LiveAfter(actions), Events(actions);
              var read := AllRecords(aead, s.ring.cache, s.disk);
              && read == Records(live.records)
              && (AlwaysBelow(json, hash, start, events) <==> Covered(json, hash, start, events))
              && (Covered(json, hash, start, events) ==>
                    && Clean(json, hash, start, read.records)
                    && (live.filter.Some? ==>
                          Below(Fold(json, hash, start, read.records).counters, live.filter.value.counters)))
    {
      hide LegalRun, Run, KeysKept, Completed, LegalEvents, LiveRun, Fold, Clean, AllRecords, Covered;
      var recs := OwnRecovery(aead, cfg, ring, WalSteps(actions));
      RecordsMatch(actions);
      ReplayBelowIff(json, hash, start, Events(actions));
    }
  }
}
