/**
 * Whole runs of replicas of the state machine: where snapshots are taken, written and restored
 * cannot be told from the filters.
 */
module FsmRuns {
  import opened Bytes
  import opened HashIndices
  import opened Counters
  import opened CountingFilter
  import opened FilterCodec
  import opened Fsm

  /** The filter after applying a log to f, entry by entry. */
  function Fold(json: Json, hash: Hash32, f: Filter, log: seq<seq<byte>>): (r: Filter)
    requires f.Usable()
    ensures r.Usable() && r.m == f.m && r.k == f.k
  {
    if log == [] then f
    else ApplyEntry(json, hash, Fold(json, hash, f, log[..|log| - 1]), log[|log| - 1]).filter
  }

  // ---- snapshots ----

  /** A replica has applied `pos` entries; `pending` is a snapshot taken but not yet written, with its position. */
  datatype Replica = Replica(pos: nat, filter: Filter, pending: Option<Stored>)

  /** A snapshot and the log position Raft files it under. */
  datatype Stored = Stored(pos: nat, bytes: seq<byte>)

  datatype Cluster = Cluster(replicas: map<nat, Replica>, snapshots: seq<Stored>)

  /** Join is a start or restart from nothing. PersistRaw writes the old snapshot format. */
  datatype Step =
    | Join(id: nat)
    | Apply(id: nat)
    | Snapshot(id: nat)
    | Persist(id: nat, now: int)
    | PersistRaw(id: nat)
    | Restore(id: nat, which: nat)

  /** Everything a run depends on; `start` is the empty filter every replica begins with. */
  datatype Setting = Setting(json: Json, hash: Hash32, start: Filter, log: seq<seq<byte>>) {
    ghost predicate Valid() { json.Lawful() && Encodable(start) && start.Usable() }

    /** The filter of the first p entries. */
    function At(p: nat): (f: Filter)
      requires start.Usable() && p <= |log|
      ensures f.Usable() && f.m == start.m && f.k == start.k
    {
      Fold(json, hash, start, log[..p])
    }

    ghost predicate Legal(c: Cluster, step: Step) {
      match step
      case Join(_) => true
      case Apply(id) => id in c.replicas && c.replicas[id].pos < |log| && c.replicas[id].filter.Usable()
      case Snapshot(id) => id in c.replicas
      case Persist(id, _) => id in c.replicas && c.replicas[id].pending.Some?
      case PersistRaw(id) => id in c.replicas && c.replicas[id].pending.Some?
      case Restore(id, which) => id in c.replicas && which < |c.snapshots|
    }

    ghost function Next(c: Cluster, step: Step): Cluster
      requires Legal(c, step)
    {
      var id := step.id;
      match step
      case Join(_) => c.(replicas := c.replicas[id := Replica(0, start, None)])
      case Apply(_) =>
        var r := c.replicas[id];
        var f := ApplyEntry(json, hash, r.filter, log[r.pos]).filter;
        c.(replicas := c.replicas[id := r.(pos := r.pos + 1, filter := f)])
      case Snapshot(_) =>
        var r := c.replicas[id];
        c.(replicas := c.replicas[id := r.(pending := Some(Stored(r.pos, Serialize(r.filter))))])
      case Persist(_, now) =>
        var r := c.replicas[id];
        var text := Persisted(json, r.pending.value.bytes, now);
        Cluster(c.replicas[id := r.(pending := None)], c.snapshots + [Stored(r.pending.value.pos, text)])
      case PersistRaw(_) =>
        var r := c.replicas[id];
        Cluster(c.replicas[id := r.(pending := None)], c.snapshots + [r.pending.value])
      case Restore(_, which) =>
        var r, s := c.replicas[id], c.snapshots[which];
        match Restored(json, s.bytes)
        case Ok(f) => c.(replicas := c.replicas[id := r.(pos := s.pos, filter := f)])
        case _ => c
    }

    ghost predicate LegalRun(steps: seq<Step>)
      decreases |steps|, 0
    {
      steps != [] ==> LegalRun(steps[..|steps| - 1]) && Legal(Run(steps[..|steps| - 1]), steps[|steps| - 1])
    }

    ghost function Run(steps: seq<Step>): Cluster
      requires LegalRun(steps)
      decreases |steps|, 1
    {
      if steps == [] then Cluster(map[], []) else Next(Run(steps[..|steps| - 1]), steps[|steps| - 1])
    }

    // ---- what every step keeps ----

    ghost predicate ReplicaOk(r: Replica)
      requires start.Usable()
    {
      && r.pos <= |log| && r.filter == At(r.pos)
      && (r.pending.Some? ==> r.pending.value.pos <= |log| && r.pending.value.bytes == Serialize(At(r.pending.value.pos)))
    }

    ghost predicate SnapshotOk(s: Stored)
      requires start.Usable()
    {
      s.pos <= |log| && Restored(json, s.bytes) == Ok(At(s.pos))
    }

    ghost predicate Inv(c: Cluster)
      requires start.Usable()
    {
      && (forall id | id in c.replicas :: ReplicaOk(c.replicas[id]))
      && (forall i | 0 <= i < |c.snapshots| :: SnapshotOk(c.snapshots[i]))
    }

    lemma AtStep(p: nat)
      requires start.Usable() && p < |log|
      ensures At(p + 1) == ApplyEntry(json, hash, At(p), log[p]).filter
    {
      hide ApplyEntry;
      assert log[..p + 1][..p] == log[..p];
    }

    lemma AtEncodable(p: nat)
      requires Valid() && p <= |log|
      ensures Encodable(At(p)) && At(0) == start
    {
      hide Fold, Json.Lawful;
      assert log[..0] == [];
      FoldEmpty(json, hash, start);
    }

    lemma ReplicaStep(c: Cluster, step: Step)
      requires Valid() && Inv(c) && Legal(c, step) && !step.Persist? && !step.PersistRaw?
      ensures Inv(Next(c, step))
    {
      hide ApplyEntry, Restored, Serialize, At, Json.Lawful;
      AtEncodable(0);
      match step
      case Apply(id) => AtStep(c.replicas[id].pos);
      case Restore(id, which) => assert SnapshotOk(c.snapshots[which]) && ReplicaOk(c.replicas[id]);
      case Snapshot(id) => assert ReplicaOk(c.replicas[id]);
      case Join(id) =>
    }

    lemma PersistStep(c: Cluster, step: Step)
      requires Valid() && Inv(c) && Legal(c, step) && (step.Persist? || step.PersistRaw?)
      ensures Inv(Next(c, step))
    {
      hide ApplyEntry, Restored, Serialize, At, Json.Lawful, Persisted;
      var r := c.replicas[step.id];
      assert ReplicaOk(r);
      var p := r.pending.value.pos;
      AtEncodable(p);
      RestoreRoundTrip(json, At(p), if step.Persist? then step.now else 0);
      var t := Next(c, step);
      assert SnapshotOk(t.snapshots[|c.snapshots|]);
    }

    lemma {:induction false} InvRun(steps: seq<Step>)
      requires Valid() && LegalRun(steps)
      ensures Inv(Run(steps))
    {
      hide Inv, Next, Legal, Json.Lawful, Encodable;
      if steps == [] {
        InvInitial();
      } else {
        var before, step := steps[..|steps| - 1], steps[|steps| - 1];
        InvRun(before);
        if step.Persist? || step.PersistRaw? {
          PersistStep(Run(before), step);
        } else {
          ReplicaStep(Run(before), step);
        }
      }
    }

    lemma InvInitial()
      requires start.Usable()
      ensures Inv(Cluster(map[], []))
    {}

    /** Every step has its effect: an entry is applied, a snapshot is filed under the position it was taken at, a restore moves there. */
    lemma StepsTakeEffect(steps: seq<Step>, step: Step)
      requires Valid() && LegalRun(steps) && Legal(Run(steps), step)
      ensures var c, d := Run(steps), Next(Run(steps), step);
              match step
              case Join(id) => id in d.replicas && d.replicas[id].pos == 0
              case Apply(id) => d.replicas[id].pos == c.replicas[id].pos + 1
              case Snapshot(id) => d.replicas[id].pending.Some? && d.replicas[id].pending.value.pos == c.replicas[id].pos
              case Persist(id, _) => |d.snapshots| == |c.snapshots| + 1
                                     && d.snapshots[|c.snapshots|].pos == c.replicas[id].pending.value.pos
              case PersistRaw(id) => |d.snapshots| == |c.snapshots| + 1
                                     && d.snapshots[|c.snapshots|].pos == c.replicas[id].pending.value.pos
              case Restore(id, which) => d.replicas[id].pos == c.snapshots[which].pos
    {
      InvRun(steps);
      hide Run, LegalRun, ApplyEntry, Serialize, Restored, Persisted, At;
      if step.Restore? { assert SnapshotOk(Run(steps).snapshots[step.which]); }
    }

    /**
     * However snapshots are taken, written (in either format) and restored, with entries applied in
     * between, every replica has exactly the filter of the log prefix it stands at, and every snapshot
     * restores; so replicas at the same position agree on m, k and every counter.
     */
    lemma SnapshotsInvisible(steps: seq<Step>)
      requires Valid() && LegalRun(steps)
      ensures var c := Run(steps);
              && (forall id | id in c.replicas ::
                    c.replicas[id].pos <= |log| && c.replicas[id].filter == Fold(json, hash, start, log[..c.replicas[id].pos]))
              && (forall i | 0 <= i < |c.snapshots| ::
                    && c.snapshots[i].pos <= |log|
                    && Restored(json, c.snapshots[i].bytes) == Ok(Fold(json, hash, start, log[..c.snapshots[i].pos])))
      ensures var c := Run(steps);
              forall i, j | i in c.replicas && j in c.replicas && c.replicas[i].pos == c.replicas[j].pos ::
                c.replicas[i].filter == c.replicas[j].filter
    {
      hide Run, LegalRun, Fold, Restored;
      InvRun(steps);
      var c := Run(steps);
      assert forall id | id in c.replicas :: ReplicaOk(c.replicas[id]);
      assert forall i | 0 <= i < |c.snapshots| :: SnapshotOk(c.snapshots[i]);
    }
  }

  lemma FoldEmpty(json: Json, hash: Hash32, f: Filter)
    requires f.Usable()
    ensures Fold(json, hash, f, []) == f
  {}
}
