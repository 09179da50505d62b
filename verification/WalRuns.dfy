/**
 * Every run of the WAL: writes, rolls, clean-ups, crashes at any byte, restarts and key changes.
 * The directory is shown to be, at all times, a list of segments of whole records, of which only
 * the last byte run of a segment may be torn.
 */
module WalRuns {
  import opened Bytes
  import opened Encryptor
  import opened WalFormat
  import opened WalDirectory
  import opened Wal

  // ---- the abstract log ----

  datatype Segment = Segment(recs: seq<Rec>, torn: seq<byte>)

  const EMPTY := Segment([], [])

  /** The file with index first + i holds segs[i]. */
  datatype Log = Log(first: nat, segs: seq<Segment>)

  function Contents(a: Aead, seg: Segment): seq<byte> { Frames(a, seg.recs) + seg.torn }

  predicate InLog(log: Log, k: nat) { log.first <= k < log.first + |log.segs| }

  /** The directory that holds exactly the log's segments. */
  function DiskOf(a: Aead, log: Log): (d: Disk)
    ensures forall k: nat :: k in d <==> InLog(log, k)
    ensures forall k: nat | InLog(log, k) :: d[k] == Contents(a, log.segs[k - log.first])
    decreases |log.segs|
  {
    if log.segs == [] then map[]
    else
      var n := |log.segs| - 1;
      var d := DiskOf(a, Log(log.first, log.segs[..n]));
      d[log.first + n := Contents(a, log.segs[n])]
  }

  lemma IsDiskOf(a: Aead, log: Log, d: Disk)
    requires forall k: nat :: k in d <==> InLog(log, k)
    requires forall k: nat | InLog(log, k) :: d[k] == Contents(a, log.segs[k - log.first])
    ensures d == DiskOf(a, log)
  {
    hide DiskOf, Contents;
    assert d.Keys == DiskOf(a, log).Keys;
  }

  /** All whole records, oldest first. */
  function Surviving(segs: seq<Segment>): seq<Rec> {
    if segs == [] then [] else Surviving(segs[..|segs| - 1]) + segs[|segs| - 1].recs
  }

  function OpenSegment(log: Log): Log {
    if log.segs == [] then Log(1, [EMPTY]) else Log(log.first, log.segs + [EMPTY])
  }

  function Trim(log: Log, n: nat): Log {
    if |log.segs| <= n then log
    else Log(log.first + |log.segs| - n, log.segs[|log.segs| - n..])
  }

  function Last(log: Log): Segment
    requires log.segs != []
  {
    log.segs[|log.segs| - 1]
  }

  function WithLast(log: Log, seg: Segment): Log
    requires log.segs != []
  {
    log.(segs := log.segs[|log.segs| - 1 := seg])
  }

  // ---- the directory follows the log ----

  function Range(first: nat, n: nat): (s: seq<nat>)
    ensures |s| == n && forall i | 0 <= i < n :: s[i] == first + i
  {
    seq(n, i requires 0 <= i < n => first + i)
  }

  lemma ListingOf(a: Aead, log: Log)
    ensures Listing(DiskOf(a, log).Keys) == Range(log.first, |log.segs|)
    ensures |DiskOf(a, log)| == |log.segs|
  {
    hide DiskOf, Contents;
    var s, keys := Range(log.first, |log.segs|), DiskOf(a, log).Keys;
    forall k ensures k in s <==> k in keys {
      if k in keys { assert s[k - log.first] == k; }
    }
    ListingUnique(s, keys);
    assert |DiskOf(a, log)| == |keys|;
  }

  lemma EmptyContents(a: Aead)
    ensures Contents(a, EMPTY) == []
  {
    assert Frames(a, []) == [];
  }

  lemma OpenedOf(a: Aead, log: Log)
    requires log.segs != []
    ensures Opened(DiskOf(a, log), log.first + |log.segs|) == DiskOf(a, OpenSegment(log))
    ensures Opened(DiskOf(a, log), log.first + |log.segs|)[log.first + |log.segs|] == []
  {
    hide DiskOf, Contents;
    EmptyContents(a);
    IsDiskOf(a, OpenSegment(log), Opened(DiskOf(a, log), log.first + |log.segs|));
  }

  lemma OpenedEmpty(a: Aead, first: nat)
    ensures DiskOf(a, Log(first, [])) == map[] && Opened(map[], 1) == DiskOf(a, Log(1, [EMPTY]))
  {
    EmptyContents(a);
    hide Contents;
    IsDiskOf(a, Log(1, [EMPTY]), map[1 := []]);
  }

  lemma StartedOf(a: Aead, log: Log)
    ensures var t := OpenSegment(log);
            Started(DiskOf(a, log)) == (DiskOf(a, t), Writer(t.first + |t.segs| - 1, 0))
  {
    hide DiskOf, Contents, Listing, InLog;
    ListingOf(a, log);
    if log.segs == [] {
      OpenedEmpty(a, log.first);
    } else {
      OpenedOf(a, log);
    }
  }

  lemma DropOldest(a: Aead, log: Log)
    requires log.segs != []
    ensures DiskOf(a, log).Keys != {} && Least(DiskOf(a, log).Keys) == log.first
    ensures DiskOf(a, log) - {log.first} == DiskOf(a, Log(log.first + 1, log.segs[1..]))
  {
    hide DiskOf, Contents;
    var d := DiskOf(a, log);
    assert InLog(log, log.first) && log.first in d;
    IsDiskOf(a, Log(log.first + 1, log.segs[1..]), d - {log.first});
  }

  lemma {:induction false} CleanedOf(a: Aead, log: Log, n: nat)
    ensures Cleaned(DiskOf(a, log), n) == DiskOf(a, Trim(log, n))
    decreases |log.segs|
  {
    hide DiskOf, Contents, Listing, Cleaned, InLog;
    ListingOf(a, log);
    if |log.segs| > n {
      var shorter := Log(log.first + 1, log.segs[1..]);
      DropOldest(a, log);
      CleanedStep(DiskOf(a, log), n);
      CleanedOf(a, shorter, n);
      TrimStep(log, n);
    }
  }

  lemma TrimStep(log: Log, n: nat)
    requires |log.segs| > n
    ensures Trim(log, n) == Trim(Log(log.first + 1, log.segs[1..]), n)
  {}

  lemma AppendedOf(a: Aead, log: Log, seg: Segment, bytes: seq<byte>)
    requires log.segs != [] && Contents(a, seg) == Contents(a, Last(log)) + bytes
    ensures Appended(DiskOf(a, log), log.first + |log.segs| - 1, bytes) == DiskOf(a, WithLast(log, seg))
  {
    hide DiskOf, Contents;
    var i := log.first + |log.segs| - 1;
    assert InLog(log, i);
    IsDiskOf(a, WithLast(log, seg), Appended(DiskOf(a, log), i, bytes));
  }

  lemma AppendRecord(a: Aead, seg: Segment, r: Rec)
    requires seg.torn == []
    ensures Contents(a, Segment(seg.recs + [r], [])) == Contents(a, seg) + Frame(a, r)
  {
    hide Frame;
    assert (seg.recs + [r])[..|seg.recs|] == seg.recs;
  }

  lemma RolledOf(a: Aead, cfg: Config, log: Log, w: Writer)
    requires log.segs != [] && cfg.maxFiles >= 1 && w.index == log.first + |log.segs| - 1
    ensures var t := Trim(OpenSegment(log), cfg.maxFiles);
            && t.segs != [] && |t.segs| <= cfg.maxFiles && Last(t) == EMPTY
            && Rolled(cfg, DiskOf(a, log), w) == (DiskOf(a, t), Writer(t.first + |t.segs| - 1, 0))
  {
    hide DiskOf, Contents, Cleaned, InLog;
    OpenedOf(a, log);
    CleanedOf(a, OpenSegment(log), cfg.maxFiles);
  }

  // ---- the machine ----

  /**
   * Start is a (re)start of the writer by a process holding some key ring. A crash may strike in the
   * middle of a write, after `kept` bytes of the frame, or in the middle of a roll, after the new
   * file exists and some of the deletions are done, leaving `left` files. Stop is a crash or Close
   * between operations.
   */
  datatype Step =
    | Start(ring: Keyring)
    | Write(nonce: Nonce, plain: seq<byte>, expired: bool)
    | CrashInWrite(nonce: Nonce, plain: seq<byte>, expired: bool, kept: nat)
    | CrashInRoll(left: nat)
    | Stop
    | Rotate(key: Key)
    | Reload(key: Key, version: u32)

  datatype State = State(disk: Disk, writer: Option<Writer>, ring: Keyring)

  function NewRecord(ring: Keyring, nonce: Nonce, plain: seq<byte>): Rec {
    Rec(ring.key, ring.version, nonce, plain)
  }

  const MAX_INDEX := 1_000_000

  /** What the environment may do in a state. */
  ghost predicate Legal(a: Aead, cfg: Config, s: State, step: Step) {
    match step
    case Start(_) => NextIndex(s.disk) < MAX_INDEX
    case Write(nonce, plain, _) =>
      && s.writer.Some? && s.writer.value.index + 1 < MAX_INDEX && Fits(a, NewRecord(s.ring, nonce, plain))
    case CrashInWrite(nonce, plain, _, kept) =>
      && s.writer.Some? && s.writer.value.index + 1 < MAX_INDEX && Fits(a, NewRecord(s.ring, nonce, plain))
      && kept < |Frame(a, NewRecord(s.ring, nonce, plain))|
    case CrashInRoll(left) => s.writer.Some? && s.writer.value.index + 1 < MAX_INDEX && left >= cfg.maxFiles
    case _ => true
  }

  ghost function Exec(a: Aead, cfg: Config, s: State, step: Step): State
    requires Legal(a, cfg, s, step)
  {
    match step
    case Start(ring) =>
      var (d, w) := Started(s.disk);
      State(d, Some(w), ring)
    case Write(nonce, plain, expired) =>
      var (d, w) := Written(cfg, s.disk, s.writer.value, Frame(a, NewRecord(s.ring, nonce, plain)), expired);
      State(d, Some(w), s.ring)
    case CrashInWrite(nonce, plain, expired, kept) =>
      var frame := Frame(a, NewRecord(s.ring, nonce, plain));
      var (d, w) := MaybeRolled(cfg, s.disk, s.writer.value, frame, expired);
      State(Appended(d, w.index, frame[..kept]), None, s.ring)
    case CrashInRoll(left) =>
      State(Cleaned(Opened(s.disk, s.writer.value.index + 1), left), None, s.ring)
    case Stop => s.(writer := None)
    case Rotate(key) => s.(ring := Rotated(s.ring, key))
    case Reload(key, version) => s.(ring := Installed(s.ring, key, version))
  }

  // ---- the same steps on the log ----

  /** `history` lists the completed writes in order. */
  datatype Abstract = Abstract(log: Log, writing: bool, ring: Keyring, history: seq<Rec>)

  function RolledLog(a: Aead, cfg: Config, log: Log, frame: seq<byte>, expired: bool): Log
    requires log.segs != []
  {
    if NeedsRoll(cfg, |Contents(a, Last(log))|, frame, expired) then Trim(OpenSegment(log), cfg.maxFiles) else log
  }

  function AbstractExec(a: Aead, cfg: Config, t: Abstract, step: Step): Abstract
    requires cfg.maxFiles >= 1
    requires step.Write? || step.CrashInWrite? || step.CrashInRoll? ==> t.log.segs != []
  {
    match step
    case Start(ring) => t.(log := OpenSegment(t.log), writing := true, ring := ring)
    case Write(nonce, plain, expired) =>
      var r := NewRecord(t.ring, nonce, plain);
      var log := RolledLog(a, cfg, t.log, Frame(a, r), expired);
      t.(log := WithLast(log, Segment(Last(log).recs + [r], [])), history := t.history + [r])
    case CrashInWrite(nonce, plain, expired, kept) =>
      var frame := Frame(a, NewRecord(t.ring, nonce, plain));
      var log := RolledLog(a, cfg, t.log, frame, expired);
      var torn := if kept < |frame| then frame[..kept] else [];
      t.(log := WithLast(log, Segment(Last(log).recs, torn)), writing := false)
    case CrashInRoll(left) =>
      t.(log := Trim(OpenSegment(t.log), left), writing := false)
    case Stop => t.(writing := false)
    case Rotate(key) => t.(ring := Rotated(t.ring, key))
    case Reload(key, version) => t.(ring := Installed(t.ring, key, version))
  }

  /** The concrete state is the abstract one. */
  ghost predicate Related(a: Aead, s: State, t: Abstract) {
    && s.disk == DiskOf(a, t.log) && s.ring == t.ring
    && (t.writing ==>
          && t.log.segs != [] && Last(t.log).torn == []
          && s.writer == Some(Writer(t.log.first + |t.log.segs| - 1, |Contents(a, Last(t.log))|)))
    && (!t.writing ==> s.writer == None)
  }

  lemma RelatedRoll(a: Aead, cfg: Config, s: State, t: Abstract, frame: seq<byte>, expired: bool)
    requires cfg.maxFiles >= 1 && Related(a, s, t) && t.writing
    ensures var log := RolledLog(a, cfg, t.log, frame, expired);
            && log.segs != [] && Last(log).torn == []
            && MaybeRolled(cfg, s.disk, s.writer.value, frame, expired)
               == (DiskOf(a, log), Writer(log.first + |log.segs| - 1, |Contents(a, Last(log))|))
  {
    hide DiskOf, Contents, Rolled, Trim;
    if NeedsRoll(cfg, s.writer.value.size, frame, expired) {
      RolledOf(a, cfg, t.log, s.writer.value);
      EmptyContents(a);
    }
  }

  lemma TornContents(a: Aead, seg: Segment, bytes: seq<byte>)
    requires seg.torn == []
    ensures Contents(a, Segment(seg.recs, bytes)) == Contents(a, seg) + bytes
  {
    hide Frames;
  }

  lemma RelatedWrite(a: Aead, cfg: Config, s: State, t: Abstract, step: Step)
    requires cfg.maxFiles >= 1 && Related(a, s, t) && step.Write? && Legal(a, cfg, s, step)
    ensures t.log.segs != [] && Related(a, Exec(a, cfg, s, step), AbstractExec(a, cfg, t, step))
  {
    hide DiskOf, Contents, InLog, MaybeRolled, RolledLog, Frame, Appended, NextIndex, Fits;
    var r := NewRecord(s.ring, step.nonce, step.plain);
    var log := RolledLog(a, cfg, t.log, Frame(a, r), step.expired);
    RelatedRoll(a, cfg, s, t, Frame(a, r), step.expired);
    AppendRecord(a, Last(log), r);
    AppendedOf(a, log, Segment(Last(log).recs + [r], []), Frame(a, r));
  }

  lemma RelatedCrash(a: Aead, cfg: Config, s: State, t: Abstract, step: Step)
    requires cfg.maxFiles >= 1 && Related(a, s, t) && step.CrashInWrite? && Legal(a, cfg, s, step)
    ensures t.log.segs != [] && Related(a, Exec(a, cfg, s, step), AbstractExec(a, cfg, t, step))
  {
    hide DiskOf, Contents, InLog, MaybeRolled, RolledLog, Frame, Appended, NextIndex, Fits;
    var frame := Frame(a, NewRecord(s.ring, step.nonce, step.plain));
    var log := RolledLog(a, cfg, t.log, frame, step.expired);
    RelatedRoll(a, cfg, s, t, frame, step.expired);
    TornContents(a, Last(log), frame[..step.kept]);
    AppendedOf(a, log, Segment(Last(log).recs, frame[..step.kept]), frame[..step.kept]);
  }

  lemma RelatedStart(a: Aead, cfg: Config, s: State, t: Abstract, step: Step)
    requires cfg.maxFiles >= 1 && Related(a, s, t) && step.Start? && Legal(a, cfg, s, step)
    ensures Related(a, Exec(a, cfg, s, step), AbstractExec(a, cfg, t, step))
  {
    hide DiskOf, Contents, InLog, Started, NextIndex;
    StartedOf(a, t.log);
    EmptyContents(a);
  }

  lemma RelatedRollCrash(a: Aead, cfg: Config, s: State, t: Abstract, step: Step)
    requires cfg.maxFiles >= 1 && Related(a, s, t) && step.CrashInRoll? && Legal(a, cfg, s, step)
    ensures t.log.segs != [] && Related(a, Exec(a, cfg, s, step), AbstractExec(a, cfg, t, step))
  {
    hide DiskOf, Contents, InLog, Cleaned, Opened, Trim, NextIndex;
    OpenedOf(a, t.log);
    CleanedOf(a, OpenSegment(t.log), step.left);
  }

  lemma RelatedQuiet(a: Aead, cfg: Config, s: State, t: Abstract, step: Step)
    requires cfg.maxFiles >= 1 && Related(a, s, t) && (step.Stop? || step.Rotate? || step.Reload?)
    ensures Related(a, Exec(a, cfg, s, step), AbstractExec(a, cfg, t, step))
  {
    hide DiskOf, Contents, InLog;
  }

  /** Every step keeps the directory equal to the log. */
  lemma RelatedStep(a: Aead, cfg: Config, s: State, t: Abstract, step: Step)
    requires cfg.maxFiles >= 1 && Related(a, s, t) && Legal(a, cfg, s, step)
    ensures step.Write? || step.CrashInWrite? || step.CrashInRoll? ==> t.log.segs != []
    ensures Related(a, Exec(a, cfg, s, step), AbstractExec(a, cfg, t, step))
  {
    hide Related, Exec, AbstractExec, Legal;
    match step
    case Write(_, _, _) => RelatedWrite(a, cfg, s, t, step);
    case CrashInWrite(_, _, _, _) => RelatedCrash(a, cfg, s, t, step);
    case Start(_) => RelatedStart(a, cfg, s, t, step);
    case CrashInRoll(_) => RelatedRollCrash(a, cfg, s, t, step);
    case _ => RelatedQuiet(a, cfg, s, t, step);
  }
}
