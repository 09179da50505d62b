/**
 * What survives crashes: the log's invariant over every run, and what a reader gets back from the
 * directory afterwards.
 */
module WalRecovery {
  import opened Bytes
  import opened Encryptor
  import opened WalFormat
  import opened WalDirectory
  import opened Wal
  import opened WalRuns

  // ---- what every step keeps of the log ----

  /** Nothing but the oldest records is missing, and nothing at all while there are fewer than maxFiles files. */
  ghost predicate Kept(cfg: Config, recs: seq<Rec>, history: seq<Rec>, files: nat) {
    Suffix(recs, history) && (files < cfg.maxFiles ==> recs == history)
  }

  /** Within the size limit, or a single record, or no whole record at all. */
  ghost predicate Sized(a: Aead, cfg: Config, seg: Segment) {
    || |Contents(a, seg)| <= cfg.maxFileSize
    || (|seg.recs| == 1 && seg.torn == [])
    || seg.recs == []
  }

  ghost predicate Wellformed(a: Aead, cfg: Config, seg: Segment) {
    AllFit(a, seg.recs) && Torn(seg.torn) && Sized(a, cfg, seg)
  }

  /** The log holds whole records, the newest part of what was written, in files of bounded size. */
  ghost predicate Inv(a: Aead, cfg: Config, t: Abstract) {
    && (forall i | 0 <= i < |t.log.segs| :: Wellformed(a, cfg, t.log.segs[i]))
    && Kept(cfg, Surviving(t.log.segs), t.history, |t.log.segs|)
    && (t.writing ==> t.log.segs != [] && Last(t.log).torn == [])
    && (t.log.segs != [] ==> t.log.first >= 1)
  }

  lemma {:induction false} SurvivingConcat(p: seq<Segment>, q: seq<Segment>)
    ensures Surviving(p + q) == Surviving(p) + Surviving(q)
  {
    if q == [] {
      assert p + q == p;
    } else {
      var n := |q| - 1;
      assert (p + q)[..|p + q| - 1] == p + q[..n];
      SurvivingConcat(p, q[..n]);
    }
  }

  lemma SurvivingTrim(log: Log, n: nat)
    ensures Suffix(Surviving(Trim(log, n).segs), Surviving(log.segs))
  {
    if |log.segs| > n {
      var k := |log.segs| - n;
      SurvivingConcat(log.segs[..k], log.segs[k..]);
      assert log.segs == log.segs[..k] + log.segs[k..];
    }
  }

  lemma SurvivingOpen(log: Log)
    ensures Surviving(OpenSegment(log).segs) == Surviving(log.segs)
  {
    if log.segs == [] {
      assert [EMPTY][..0] == [];
    } else {
      assert (log.segs + [EMPTY])[..|log.segs|] == log.segs;
    }
  }

  lemma SurvivingWithLast(log: Log, seg: Segment)
    requires log.segs != []
    ensures Surviving(WithLast(log, seg).segs) == Surviving(log.segs[..|log.segs| - 1]) + seg.recs
  {
    var n := |log.segs| - 1;
    assert WithLast(log, seg).segs[..n] == log.segs[..n];
  }

  lemma EmptyWellformed(a: Aead, cfg: Config)
    ensures Wellformed(a, cfg, EMPTY)
  {}

  /** Opening and trimming keep the invariant. */
  lemma InvOpen(a: Aead, cfg: Config, t: Abstract)
    requires Inv(a, cfg, t)
    ensures Inv(a, cfg, t.(log := OpenSegment(t.log)))
  {
    hide Wellformed, Surviving;
    EmptyWellformed(a, cfg);
    SurvivingOpen(t.log);
  }

  lemma InvTrim(a: Aead, cfg: Config, t: Abstract, n: nat)
    requires Inv(a, cfg, t) && n >= cfg.maxFiles >= 1
    ensures Inv(a, cfg, t.(log := Trim(t.log, n)))
  {
    hide Wellformed, Surviving;
    SurvivingTrim(t.log, n);
  }

  lemma InvRoll(a: Aead, cfg: Config, t: Abstract, frame: seq<byte>, expired: bool)
    requires cfg.maxFiles >= 1 && Inv(a, cfg, t) && t.log.segs != [] && Last(t.log).torn == []
    ensures var log := RolledLog(a, cfg, t.log, frame, expired);
            && log.segs != [] && Last(log).torn == [] && Inv(a, cfg, t.(log := log))
            && (Last(log).recs == [] || |Contents(a, Last(log))| + |frame| <= cfg.maxFileSize)
  {
    hide Inv, Contents;
    if NeedsRoll(cfg, |Contents(a, Last(t.log))|, frame, expired) {
      InvOpen(a, cfg, t);
      InvTrim(a, cfg, t.(log := OpenSegment(t.log)), cfg.maxFiles);
    }
  }

  lemma InvReplaceLast(a: Aead, cfg: Config, t: Abstract, seg: Segment, history: seq<Rec>, writing: bool)
    requires Inv(a, cfg, t) && t.log.segs != [] && Wellformed(a, cfg, seg) && (writing ==> seg.torn == [])
    requires Kept(cfg, Surviving(t.log.segs[..|t.log.segs| - 1]) + seg.recs, history, |t.log.segs|)
    ensures Inv(a, cfg, t.(log := WithLast(t.log, seg), history := history, writing := writing))
  {
    hide Wellformed, Surviving;
    SurvivingWithLast(t.log, seg);
  }

  lemma InvParts(a: Aead, cfg: Config, t: Abstract)
    requires Inv(a, cfg, t)
    ensures t.writing ==> t.log.segs != [] && Last(t.log).torn == []
    ensures t.log.segs != [] ==>
              && Wellformed(a, cfg, Last(t.log))
              && Kept(cfg, Surviving(t.log.segs[..|t.log.segs| - 1]) + Last(t.log).recs, t.history, |t.log.segs|)
  {
    hide Wellformed;
  }

  lemma KeptSnoc(cfg: Config, p: seq<Rec>, q: seq<Rec>, history: seq<Rec>, r: Rec, files: nat)
    requires Kept(cfg, p + q, history, files)
    ensures Kept(cfg, p + (q + [r]), history + [r], files)
  {
    assert p + (q + [r]) == (p + q) + [r];
  }

  lemma InvWrite(a: Aead, cfg: Config, t: Abstract, step: Step)
    requires cfg.maxFiles >= 1 && Inv(a, cfg, t) && t.writing && step.Write?
    requires Fits(a, NewRecord(t.ring, step.nonce, step.plain))
    ensures Inv(a, cfg, AbstractExec(a, cfg, t, step))
  {
    hide Inv, Contents, Frame, RolledLog, Surviving;
    var r := NewRecord(t.ring, step.nonce, step.plain);
    assert t.log.segs != [] && Last(t.log).torn == [] by { InvParts(a, cfg, t); }
    InvRoll(a, cfg, t, Frame(a, r), step.expired);
    var log := RolledLog(a, cfg, t.log, Frame(a, r), step.expired);
    var u := t.(log := log);
    InvParts(a, cfg, u);
    AppendRecord(a, Last(log), r);
    KeptSnoc(cfg, Surviving(log.segs[..|log.segs| - 1]), Last(log).recs, t.history, r, |log.segs|);
    InvReplaceLast(a, cfg, u, Segment(Last(log).recs + [r], []), t.history + [r], true);
  }

  lemma InvCrash(a: Aead, cfg: Config, t: Abstract, step: Step)
    requires cfg.maxFiles >= 1 && Inv(a, cfg, t) && t.writing && step.CrashInWrite?
    requires Fits(a, NewRecord(t.ring, step.nonce, step.plain))
    requires step.kept < |Frame(a, NewRecord(t.ring, step.nonce, step.plain))|
    ensures Inv(a, cfg, AbstractExec(a, cfg, t, step))
  {
    hide Inv, Contents, Frame, RolledLog, Surviving;
    var r := NewRecord(t.ring, step.nonce, step.plain);
    var frame := Frame(a, r);
    InvParts(a, cfg, t);
    InvRoll(a, cfg, t, frame, step.expired);
    var log := RolledLog(a, cfg, t.log, frame, step.expired);
    var u := t.(log := log);
    InvParts(a, cfg, u);
    StrictPrefixIsTorn(a, r, step.kept);
    TornContents(a, Last(log), frame[..step.kept]);
    InvReplaceLast(a, cfg, u, Segment(Last(log).recs, frame[..step.kept]), t.history, false);
  }

  lemma InvStep(a: Aead, cfg: Config, s: State, t: Abstract, step: Step)
    requires cfg.maxFiles >= 1 && Related(a, s, t) && Legal(a, cfg, s, step) && Inv(a, cfg, t)
    requires step.Write? || step.CrashInWrite? || step.CrashInRoll? ==> t.log.segs != []
    ensures Inv(a, cfg, AbstractExec(a, cfg, t, step))
  {
    hide DiskOf, Contents, InLog, Surviving, Wellformed, Fits, Frame, NextIndex, RolledLog, Kept;
    match step
    case Write(_, _, _) => InvWrite(a, cfg, t, step);
    case CrashInWrite(_, _, _, _) => InvCrash(a, cfg, t, step);
    case Start(_) => InvOpen(a, cfg, t);
    case CrashInRoll(left) =>
      InvOpen(a, cfg, t);
      InvTrim(a, cfg, t.(log := OpenSegment(t.log)), left);
    case _ =>
  }

  // ---- runs ----

  ghost function Run(a: Aead, cfg: Config, ring: Keyring, steps: seq<Step>): State
    requires LegalRun(a, cfg, ring, steps)
    decreases |steps|, 1
  {
    if steps == [] then State(map[], None, ring)
    else Exec(a, cfg, Run(a, cfg, ring, steps[..|steps| - 1]), steps[|steps| - 1])
  }

  ghost predicate LegalRun(a: Aead, cfg: Config, ring: Keyring, steps: seq<Step>)
    decreases |steps|, 0
  {
    steps != [] ==>
      && LegalRun(a, cfg, ring, steps[..|steps| - 1])
      && Legal(a, cfg, Run(a, cfg, ring, steps[..|steps| - 1]), steps[|steps| - 1])
  }

  /** The records whose Write returned, in order. */
  ghost function Completed(a: Aead, cfg: Config, ring: Keyring, steps: seq<Step>): seq<Rec>
    requires LegalRun(a, cfg, ring, steps)
  {
    if steps == [] then []
    else
      var before, step := steps[..|steps| - 1], steps[|steps| - 1];
      var done := Completed(a, cfg, ring, before);
      if step.Write? then done + [NewRecord(Run(a, cfg, ring, before).ring, step.nonce, step.plain)] else done
  }

  /** After every run the directory is a well-formed log of the completed writes. */
  lemma {:induction false} RunLog(a: Aead, cfg: Config, ring: Keyring, steps: seq<Step>) returns (t: Abstract)
    requires cfg.maxFiles >= 1 && LegalRun(a, cfg, ring, steps)
    ensures Related(a, Run(a, cfg, ring, steps), t) && Inv(a, cfg, t)
    ensures t.history == Completed(a, cfg, ring, steps)
  {
    if steps == [] {
      t := Abstract(Log(1, []), false, ring, []);
    } else {
      var before, step := steps[..|steps| - 1], steps[|steps| - 1];
      var s := Run(a, cfg, ring, before);
      var u := RunLog(a, cfg, ring, before);
      t := RunLogStep(a, cfg, s, u, step);
    }
  }

  lemma RunLogStep(a: Aead, cfg: Config, s: State, u: Abstract, step: Step) returns (t: Abstract)
    requires cfg.maxFiles >= 1 && Related(a, s, u) && Inv(a, cfg, u) && Legal(a, cfg, s, step)
    ensures Related(a, Exec(a, cfg, s, step), t) && Inv(a, cfg, t)
    ensures t.history == u.history + if step.Write? then [NewRecord(s.ring, step.nonce, step.plain)] else []
  {
    hide DiskOf, Contents, InLog, Inv, Exec, Legal, RolledLog;
    RelatedStep(a, cfg, s, u, step);
    InvStep(a, cfg, s, u, step);
    t := AbstractExec(a, cfg, u, step);
  }

  // ---- reading back ----

  /** What a reader with these keys gets: in each file, the records before the first unknown key version. */
  function Recovered(cache: map<u32, Key>, segs: seq<Segment>): seq<Rec> {
    if segs == [] then [] else Readable(cache, segs[0].recs) + Recovered(cache, segs[1..])
  }

  lemma PlainsConcat(p: seq<Rec>, q: seq<Rec>)
    ensures Plains(p + q) == Plains(p) + Plains(q)
  {}

  /** Whole records whose keys the reader does not misremember, and a torn tail. */
  ghost predicate Parseable(a: Aead, cache: map<u32, Key>, seg: Segment) {
    AllFit(a, seg.recs) && Torn(seg.torn) && Agrees(cache, seg.recs)
  }

  lemma {:induction false} ReadLog(a: Aead, cache: map<u32, Key>, disk: Disk, first: nat, segs: seq<Segment>)
    requires a.Lawful()
    requires forall k: nat | first <= k < first + |segs| :: k in disk && disk[k] == Contents(a, segs[k - first])
    requires forall seg | seg in segs :: Parseable(a, cache, seg)
    ensures ReadFiles(a, cache, disk, Range(first, |segs|)) == Records(Plains(Recovered(cache, segs)))
    decreases |segs|
  {
    hide Parse, AllFit, Torn, Agrees, Readable, Frames;
    var order := Range(first, |segs|);
    if segs != [] {
      assert Parseable(a, cache, segs[0]);
      ParseFrames(a, cache, segs[0].recs, segs[0].torn);
      assert order[1..] == Range(first + 1, |segs[1..]|);
      ReadLog(a, cache, disk, first + 1, segs[1..]);
      PlainsConcat(Readable(cache, segs[0].recs), Recovered(cache, segs[1..]));
    }
  }

  lemma {:induction false} RecoveredAll(cache: map<u32, Key>, segs: seq<Segment>)
    ensures |Recovered(cache, segs)| <= |Surviving(segs)|
    ensures Recovered(cache, segs) == Surviving(segs) <==> forall r | r in Surviving(segs) :: r.version in cache
    ensures |Recovered(cache, segs)| == |Surviving(segs)| ==> Recovered(cache, segs) == Surviving(segs)
  {
    hide Readable;
    if segs != [] {
      var p, rest := segs[0].recs, segs[1..];
      assert segs == [segs[0]] + rest && [segs[0]][..0] == [];
      SurvivingConcat([segs[0]], rest);
      assert Surviving(segs) == p + Surviving(rest);
      RecoveredAll(cache, rest);
      ReadableAll(cache, p);
    }
  }

  lemma {:induction false} SegmentRecords(segs: seq<Segment>, i: nat, r: Rec)
    requires i < |segs| && r in segs[i].recs
    ensures r in Surviving(segs)
  {
    if i < |segs| - 1 { SegmentRecords(segs[..|segs| - 1], i, r); }
  }

  lemma LogReadable(a: Aead, cfg: Config, cache: map<u32, Key>, t: Abstract)
    requires a.Lawful() && Inv(a, cfg, t) && Agrees(cache, Surviving(t.log.segs))
    ensures ReadFiles(a, cache, DiskOf(a, t.log), Range(t.log.first, |t.log.segs|))
            == Records(Plains(Recovered(cache, t.log.segs)))
  {
    hide DiskOf, Contents, ReadFiles, Recovered, Surviving, Readable;
    var segs, disk := t.log.segs, DiskOf(a, t.log);
    forall seg | seg in segs ensures Parseable(a, cache, seg) {
      var i :| 0 <= i < |segs| && segs[i] == seg;
      assert Wellformed(a, cfg, segs[i]);
      forall r | r in seg.recs ensures r in Surviving(segs) { SegmentRecords(segs, i, r); }
    }
    forall k: nat | t.log.first <= k < t.log.first + |segs|
      ensures k in disk && disk[k] == Contents(a, segs[k - t.log.first])
    {
      assert InLog(t.log, k);
    }
    ReadLog(a, cache, disk, t.log.first, segs);
  }

  /**
   * Crash recovery. After any run of writes, rolls, clean-ups, crashes and restarts, a reader with no
   * wrong key for a surviving record never panics and gets the completed writes in order, each once,
   * missing only the oldest ones (and none while there are fewer than maxFiles files) and, in each
   * file, what follows a record whose key version it lacks. Nothing else is missing exactly when
   * it has every surviving key version.
   */
  lemma CrashRecovery(a: Aead, cfg: Config, ring: Keyring, steps: seq<Step>, cache: map<u32, Key>)
    returns (log: Log)
    requires a.Lawful() && cfg.maxFiles >= 1 && LegalRun(a, cfg, ring, steps)
    ensures var disk, done := Run(a, cfg, ring, steps).disk, Completed(a, cfg, ring, steps);
            && disk == DiskOf(a, log) && Kept(cfg, Surviving(log.segs), done, |disk|)
            && (Agrees(cache, Surviving(log.segs)) ==>
                  AllRecords(a, cache, disk) == Records(Plains(Recovered(cache, log.segs))))
    ensures Recovered(cache, log.segs) == Surviving(log.segs)
            <==> forall r | r in Surviving(log.segs) :: r.version in cache
  {
    hide Run, Completed, LegalRun, DiskOf, Contents, InLog, Listing, ReadFiles, Recovered;
    hide Wellformed, Surviving, Kept, Agrees, Plains;
    var t := RunLog(a, cfg, ring, steps);
    log := t.log;
    ListingOf(a, log);
    if Agrees(cache, Surviving(log.segs)) { LogReadable(a, cfg, cache, t); }
    RecoveredAll(cache, log.segs);
  }

  /** Every (re)start brings the keys of what was written, and no key change rebinds a version in use. */
  ghost predicate KeysKept(a: Aead, cfg: Config, ring: Keyring, steps: seq<Step>)
    requires LegalRun(a, cfg, ring, steps)
  {
    if steps == [] then ring.Coherent()
    else
      var before := steps[..|steps| - 1];
      && KeysKept(a, cfg, ring, before)
      && KeepsKeys(KeyState(Run(a, cfg, ring, before).ring, Completed(a, cfg, ring, before)), steps[|steps| - 1])
  }

  ghost predicate KeepsKeys(k: KeyState, step: Step) {
    match step
    case Start(ring) => ring.Coherent() && AllOpenable(KeyState(ring, k.records))
    case Rotate(key) => Safe(k, KeyOp.Rotate(key))
    case Reload(key, version) => Safe(k, KeyOp.Reload(key, version))
    case _ => true
  }

  lemma KeysStep(a: Aead, cfg: Config, s: State, done: seq<Rec>, step: Step)
    requires Legal(a, cfg, s, step)
    requires s.ring.Coherent() && AllOpenable(KeyState(s.ring, done)) && KeepsKeys(KeyState(s.ring, done), step)
    ensures var more := if step.Write? then [NewRecord(s.ring, step.nonce, step.plain)] else [];
            var t := Exec(a, cfg, s, step);
            t.ring.Coherent() && AllOpenable(KeyState(t.ring, done + more))
  {
    hide Legal, Fits, Frame, Opened, Appended, Cleaned, MaybeRolled, NextIndex;
    var k := KeyState(s.ring, done);
    assert done + [] == done;
    match step
    case Rotate(key) => KeyStepExact(k, KeyOp.Rotate(key));
    case Reload(key, version) => KeyStepExact(k, KeyOp.Reload(key, version));
    case Write(nonce, plain, _) => KeyStepExact(k, Encrypt(nonce, plain));
    case _ =>
  }

  lemma {:induction false} KeysKeptOpenable(a: Aead, cfg: Config, ring: Keyring, steps: seq<Step>)
    requires LegalRun(a, cfg, ring, steps) && KeysKept(a, cfg, ring, steps)
    ensures var s := Run(a, cfg, ring, steps);
            s.ring.Coherent() && AllOpenable(KeyState(s.ring, Completed(a, cfg, ring, steps)))
  {
    hide Legal, Exec, KeepsKeys, Keyring.Coherent;
    if steps != [] {
      var before, step := steps[..|steps| - 1], steps[|steps| - 1];
      KeysKeptOpenable(a, cfg, ring, before);
      KeysStep(a, cfg, Run(a, cfg, ring, before), Completed(a, cfg, ring, before), step);
      assert Completed(a, cfg, ring, before) + [] == Completed(a, cfg, ring, before);
    }
  }

  /** With its keys kept, the process itself reads back the completed writes, missing only the oldest. */
  lemma OwnRecovery(a: Aead, cfg: Config, ring: Keyring, steps: seq<Step>) returns (recs: seq<Rec>)
    requires a.Lawful() && cfg.maxFiles >= 1 && LegalRun(a, cfg, ring, steps) && KeysKept(a, cfg, ring, steps)
    ensures var s, done := Run(a, cfg, ring, steps), Completed(a, cfg, ring, steps);
            && AllRecords(a, s.ring.cache, s.disk) == Records(Plains(recs))
            && Kept(cfg, recs, done, |s.disk|)
  {
    hide Run, Completed, LegalRun, KeysKept, DiskOf, AllRecords, Recovered, Surviving;
    var s, done := Run(a, cfg, ring, steps), Completed(a, cfg, ring, steps);
    KeysKeptOpenable(a, cfg, ring, steps);
    OpenableAgrees(s.ring, done);
    var log := CrashRecovery(a, cfg, ring, steps, s.ring.cache);
    recs := Surviving(log.segs);
    forall r | r in recs ensures r.version in s.ring.cache && s.ring.cache[r.version] == r.key { assert r in done; }
  }

  lemma OpenableAgrees(ring: Keyring, recs: seq<Rec>)
    requires AllOpenable(KeyState(ring, recs))
    ensures Agrees(ring.cache, recs) && forall r | r in recs :: r.version in ring.cache
  {
    forall r | r in recs ensures Openable(ring.cache, r) {
      assert r in KeyState(ring, recs).records;
    }
  }

  // ---- rolling ----

  /**
   * After every run the files are numbered without a gap, the file being written is the newest and
   * its recorded size is right, and every file is within the limit, or holds a single record, or
   * none that is whole.
   */
  lemma RollingInvariants(a: Aead, cfg: Config, ring: Keyring, steps: seq<Step>) returns (log: Log)
    requires cfg.maxFiles >= 1 && LegalRun(a, cfg, ring, steps)
    ensures var s := Run(a, cfg, ring, steps);
            && s.disk == DiskOf(a, log)
            && (forall i, j, k | i in s.disk && j in s.disk && i <= k <= j :: k in s.disk)
            && (s.writer.Some? ==>
                  var w := s.writer.value;
                  w.index in s.disk && w.size == |s.disk[w.index]| && forall k | k in s.disk :: k <= w.index)
    ensures forall seg | seg in log.segs :: Sized(a, cfg, seg)
  {
    hide Run, LegalRun, Completed, DiskOf, Contents, Surviving, Kept, AllFit, Torn, Sized;
    var t := RunLog(a, cfg, ring, steps);
    log := t.log;
    forall seg | seg in log.segs ensures Sized(a, cfg, seg) {
      var i :| 0 <= i < |log.segs| && log.segs[i] == seg;
      assert Wellformed(a, cfg, log.segs[i]);
    }
    if t.writing { assert InLog(log, log.first + |log.segs| - 1); }
  }

  /** A write that rolls leaves at most maxFiles files, and the record in the newest, exactly when maxFiles >= 1. */
  lemma RollCleansUp(cfg: Config, disk: Disk, w: Writer, frame: seq<byte>, expired: bool)
    requires forall k | k in disk :: k <= w.index
    requires NeedsRoll(cfg, w.size, frame, expired)
    ensures var (d, v) := Written(cfg, disk, w, frame, expired);
            && |d| <= cfg.maxFiles
            && ((v.index in d && d[v.index] == frame) <==> cfg.maxFiles >= 1)
  {
    hide Cleaned;
    var i := w.index + 1;
    var d := Opened(disk, i);
    NewestSurvives(d, i, cfg.maxFiles);
    var c := Cleaned(d, cfg.maxFiles);
    if i in c { assert c[i := c[i] + frame].Keys == c.Keys; }
  }

  /**
   * What a successful write does. It stays in the current file exactly when the frame fits and the interval
   * has not passed, and is then appended to it and changes no other file; otherwise the next file holds
   * the frame alone. The recorded size is the length of the file either way.
   */
  lemma WriteEffect(cfg: Config, disk: Disk, w: Writer, frame: seq<byte>, expired: bool)
    requires cfg.maxFiles >= 1 && w.index in disk && |disk[w.index]| == w.size && forall k | k in disk :: k <= w.index
    ensures var (d, v) := Written(cfg, disk, w, frame, expired);
            && (v.index == w.index <==> w.size + |frame| <= cfg.maxFileSize && !expired)
            && v.index in d && v.size == |d[v.index]|
            && (v.index == w.index ==> d == disk[w.index := disk[w.index] + frame])
            && (v.index != w.index ==> v.index == w.index + 1 && d[v.index] == frame)
  {
    hide Cleaned;
    if NeedsRoll(cfg, w.size, frame, expired) {
      NewestSurvives(Opened(disk, w.index + 1), w.index + 1, cfg.maxFiles);
    }
  }

  /** After every run that ends with a write, the current file ends with its frame, and the recorded size is its length. */
  lemma LastWriteLands(a: Aead, cfg: Config, ring: Keyring, steps: seq<Step>)
    requires cfg.maxFiles >= 1 && LegalRun(a, cfg, ring, steps) && steps != [] && steps[|steps| - 1].Write?
    ensures var s, done := Run(a, cfg, ring, steps), Completed(a, cfg, ring, steps);
            && s.writer.Some? && s.writer.value.index in s.disk && done != []
            && s.writer.value.size == |s.disk[s.writer.value.index]|
            && Suffix(Frame(a, done[|done| - 1]), s.disk[s.writer.value.index])
  {
    hide LegalRun, Run, Completed, Legal, Exec, Frame, DiskOf, Sized;
    var before, step := steps[..|steps| - 1], steps[|steps| - 1];
    WriteLast(a, cfg, ring, steps);
    var log := RollingInvariants(a, cfg, ring, before);
    WriteStepLands(a, cfg, Run(a, cfg, ring, before), step);
  }

  lemma WriteLast(a: Aead, cfg: Config, ring: Keyring, steps: seq<Step>)
    requires LegalRun(a, cfg, ring, steps) && steps != [] && steps[|steps| - 1].Write?
    ensures var before, step := steps[..|steps| - 1], steps[|steps| - 1];
            && LegalRun(a, cfg, ring, before) && Legal(a, cfg, Run(a, cfg, ring, before), step)
            && Run(a, cfg, ring, before).writer.Some?
            && Run(a, cfg, ring, steps) == Exec(a, cfg, Run(a, cfg, ring, before), step)
            && Completed(a, cfg, ring, steps) == Completed(a, cfg, ring, before)
                 + [NewRecord(Run(a, cfg, ring, before).ring, step.nonce, step.plain)]
  {
    hide Exec, Fits, NextIndex;
  }

  lemma WriteStepLands(a: Aead, cfg: Config, s: State, step: Step)
    requires cfg.maxFiles >= 1 && step.Write? && Legal(a, cfg, s, step)
    requires var w := s.writer.value;
             w.index in s.disk && w.size == |s.disk[w.index]| && forall k | k in s.disk :: k <= w.index
    ensures var t := Exec(a, cfg, s, step);
            && t.writer.Some? && t.writer.value.index in t.disk
            && t.writer.value.size == |t.disk[t.writer.value.index]|
            && Suffix(Frame(a, NewRecord(s.ring, step.nonce, step.plain)), t.disk[t.writer.value.index])
  {
    hide Frame, Written, Fits, NextIndex;
    WriteEffect(cfg, s.disk, s.writer.value, Frame(a, NewRecord(s.ring, step.nonce, step.plain)), step.expired);
  }

  /** An attempted write is the run's Write step when the file takes it all, and leaves the directory of a crash when not. */
  lemma AttemptIsStep(a: Aead, cfg: Config, s: State, nonce: Nonce, plain: seq<byte>, expired: bool, room: nat)
    requires s.writer.Some? && s.writer.value.index + 1 < MAX_INDEX && Fits(a, NewRecord(s.ring, nonce, plain))
    ensures var frame := Frame(a, NewRecord(s.ring, nonce, plain));
            var (d, w) := Attempted(cfg, s.disk, s.writer.value, frame, expired, room);
            if room >= |frame| then
              Legal(a, cfg, s, Step.Write(nonce, plain, expired))
              && Exec(a, cfg, s, Step.Write(nonce, plain, expired)) == State(d, Some(w), s.ring)
            else
              Legal(a, cfg, s, CrashInWrite(nonce, plain, expired, room))
              && Exec(a, cfg, s, CrashInWrite(nonce, plain, expired, room)) == State(d, None, s.ring)
  {
    hide Frame, MaybeRolled;
  }

  /** Clean-up keeps the newest file exactly when it keeps any. */
  lemma {:induction false} NewestSurvives(disk: Disk, i: nat, n: nat)
    requires i in disk && forall k | k in disk :: k <= i
    ensures i in Cleaned(disk, n) <==> n >= 1
    ensures i in Cleaned(disk, n) ==> Cleaned(disk, n)[i] == disk[i]
    decreases |disk|
  {
    if |disk| > n {
      CleanedStep(disk, n);
      var m := Least(disk.Keys);
      var rest := disk - {m};
      assert rest.Keys == disk.Keys - {m};
      if m == i {
        assert disk.Keys == {i};
        assert |disk.Keys| == 1 && |rest.Keys| == 0;
      } else {
        NewestSurvives(rest, i, n);
      }
    }
  }
}
