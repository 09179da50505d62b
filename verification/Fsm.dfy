/** The replicated state machine around the filter (BloomFSM in internal/raft/fsm.go). */
module Fsm {
  import opened Bytes
  import opened HashIndices
  import opened Counters
  import opened CountingFilter
  import opened FilterCodec
  import opened FilterBuffers
  import opened Encryptor
  import opened WalDirectory
  import opened Wal

  datatype Command = Command(kind: string, item: Item, timestamp: int)

  datatype FsmCommand = FsmCommand(kind: string, item: Item, timestamp: int, index: nat, term: nat)

  /** SnapshotData without its free-form metadata. */
  datatype SnapshotData = SnapshotData(bloomFilter: seq<byte>, timestamp: int, index: nat, term: nat)

  /** The bytes a JSON text can start with: white space or the start of a value (section 2 of RFC 8259). */
  predicate StartsJson(b: byte) {
    || b in {0x20, 0x09, 0x0A, 0x0D}
    || b in {0x7B, 0x5B, 0x22, 0x2D, 0x74, 0x66, 0x6E}
    || 0x30 <= b <= 0x39
  }

  const ADD := "add"
  const REMOVE := "remove"

  predicate Known(kind: string) { kind == ADD || kind == REMOVE }

  /** encoding/json for the three record types, seen from outside. */
  datatype Json = Json(
    parseCommand: seq<byte> -> Option<Command>,
    parseFsm: seq<byte> -> Option<FsmCommand>, renderFsm: FsmCommand -> seq<byte>,
    parseSnapshot: seq<byte> -> Option<SnapshotData>, renderSnapshot: SnapshotData -> seq<byte>)
  {
    /**
     * What is rendered is parsed back. A rendered FSMCommand is no Command: its timestamp is a
     * number where a Command has a string. What parses is a JSON text.
     */
    ghost predicate Lawful() {
      && (forall c: FsmCommand | Known(c.kind) :: parseFsm(renderFsm(c)) == Some(c) && parseCommand(renderFsm(c)) == None)
      && (forall d: SnapshotData :: parseSnapshot(renderSnapshot(d)) == Some(d))
      && (forall s | parseSnapshot(s).Some? :: s != [] && StartsJson(s[0]))
    }
  }

  datatype Outcome = Nil | ParseError | UnknownType | Overflow

  /** Command first, FSMCommand as the fallback. */
  function ParseEntry(json: Json, data: seq<byte>): Option<Command> {
    match json.parseCommand(data)
    case Some(c) => Some(c)
    case None =>
      match json.parseFsm(data)
      case Some(c) => Some(Command(c.kind, c.item, c.timestamp))
      case None => None
  }

  datatype Applied = Applied(filter: Filter, outcome: Outcome)

  function Perform(hash: Hash32, f: Filter, cmd: Command): (r: Applied)
    requires f.Usable()
    ensures r.filter.m == f.m && r.filter.k == f.k && r.filter.Usable()
  {
    var idx := Positions(hash, f.m, f.k, cmd.item);
    if cmd.kind == ADD then
      var r := AddAt(f.counters, idx);
      Applied(f.(counters := r.counters), if r.ok then Nil else Overflow)
    else if cmd.kind == REMOVE then Applied(f.(counters := RemoveAt(f.counters, idx)), Nil)
    else Applied(f, UnknownType)
  }

  /** What a log entry does to the filter. */
  function ApplyEntry(json: Json, hash: Hash32, f: Filter, data: seq<byte>): (r: Applied)
    requires f.Usable()
    ensures r.filter.m == f.m && r.filter.k == f.k && r.filter.Usable()
  {
    match ParseEntry(json, data)
    case None => Applied(f, ParseError)
    case Some(cmd) => Perform(hash, f, cmd)
  }

  /** Which command an entry holds: the Command it parses as, or else the FSMCommand. */
  ghost predicate Holds(json: Json, data: seq<byte>, kind: string, item: Item) {
    match json.parseCommand(data)
    case Some(c) => c.kind == kind && c.item == item
    case None => json.parseFsm(data).Some? && json.parseFsm(data).value.kind == kind && json.parseFsm(data).value.item == item
  }

  /** An add entry succeeds exactly when every counter has room for the item's occurrences, and then adds exactly those. */
  lemma AddEntry(json: Json, hash: Hash32, f: Filter, data: seq<byte>, item: Item)
    requires f.Usable() && Holds(json, data, "add", item)
    ensures var r, idx := ApplyEntry(json, hash, f, data), Positions(hash, f.m, f.k, item);
            && (r.outcome == Nil || r.outcome == Overflow)
            && (r.outcome == Nil <==> forall j | 0 <= j < f.m :: f.counters[j] + Occ(idx, j) <= 255)
            && (forall j | 0 <= j < f.m :: f.counters[j] <= r.filter.counters[j] <= f.counters[j] + Occ(idx, j))
            && (r.outcome == Nil ==> forall j | 0 <= j < f.m :: r.filter.counters[j] == f.counters[j] + Occ(idx, j))
  {
    hide AddAt, Positions;
    AddAtEffect(f.counters, Positions(hash, f.m, f.k, item));
  }

  /** A remove entry always succeeds and takes the item's occurrences off each counter, down to zero. */
  lemma RemoveEntry(json: Json, hash: Hash32, f: Filter, data: seq<byte>, item: Item)
    requires f.Usable() && Holds(json, data, "remove", item)
    ensures var r, idx := ApplyEntry(json, hash, f, data), Positions(hash, f.m, f.k, item);
            && r.outcome == Nil
            && (forall j | 0 <= j < f.m :: r.filter.counters[j] ==
                  if f.counters[j] >= Occ(idx, j) then f.counters[j] - Occ(idx, j) else 0)
  {
    hide RemoveAt, Positions;
    RemoveAtEffect(f.counters, Positions(hash, f.m, f.k, item));
  }

  /** Anything else is an error and changes nothing. */
  lemma OtherEntry(json: Json, hash: Hash32, f: Filter, data: seq<byte>)
    requires f.Usable()
    ensures json.parseCommand(data) == None && json.parseFsm(data) == None ==>
              ApplyEntry(json, hash, f, data) == Applied(f, ParseError)
    ensures forall kind, item | Holds(json, data, kind, item) && kind != "add" && kind != "remove" ::
              ApplyEntry(json, hash, f, data) == Applied(f, UnknownType)
  {
    hide AddAt, RemoveAt, Positions;
  }

  /** So a remove of the same item undoes an accepted add. */
  lemma AddThenRemoveEntry(json: Json, hash: Hash32, f: Filter, add: seq<byte>, remove: seq<byte>, item: Item)
    requires f.Usable() && Holds(json, add, "add", item) && Holds(json, remove, "remove", item)
    requires ApplyEntry(json, hash, f, add).outcome == Nil
    ensures ApplyEntry(json, hash, ApplyEntry(json, hash, f, add).filter, remove) == Applied(f, Nil)
  {
    hide ApplyEntry, Holds, Positions;
    var g := ApplyEntry(json, hash, f, add).filter;
    AddEntry(json, hash, f, add, item);
    RemoveEntry(json, hash, g, remove, item);
    assert ApplyEntry(json, hash, g, remove).filter.counters == f.counters;
  }

  /** A log entry, and the clock when it is applied. */
  datatype Entry = Entry(data: seq<byte>, index: nat, term: nat, now: int)

  /** The record Apply writes for an entry, if its outcome is nil. */
  function RecordOf(json: Json, e: Entry): seq<byte>
    requires ParseEntry(json, e.data).Some?
  {
    var cmd := ParseEntry(json, e.data).value;
    json.renderFsm(FsmCommand(cmd.kind, cmd.item, e.now, e.index, e.term))
  }

  /** The filter a snapshot text restores to. */
  function Restored(json: Json, data: seq<byte>): Decoded {
    match json.parseSnapshot(data)
    case Some(d) => Deserialize(d.bloomFilter)
    case None => Deserialize(data)
  }

  /** What Persist writes. */
  function Persisted(json: Json, bloomData: seq<byte>, now: int): seq<byte> {
    json.renderSnapshot(SnapshotData(bloomData, now, 0, 0))
  }

  class BloomFSM {
    const json: Json
    const hash: Hash32
    const walWriter: WALWriter?
    var bloom: CountingBloomFilter
    var lastAppliedIndex: nat
    var lastAppliedTerm: nat

    ghost predicate Valid()
      reads this
    {
      bloom.Usable() && bloom.hash == hash
    }

    /** Without a WAL directory nothing is written; with one, a new file is opened in it. */
    constructor (json: Json, bloom: CountingBloomFilter, encryptor: WALEncryptor, walDir: Directory?)
      requires bloom.Usable()
      modifies if walDir == null then {} else {walDir}
      ensures Valid() && this.bloom == bloom && this.json == json
      ensures lastAppliedIndex == 0 && lastAppliedTerm == 0
      ensures walWriter == null <==> walDir == null
      ensures walWriter != null ==>
                && fresh(walWriter) && walWriter.dir == walDir && walWriter.encryptor == encryptor
                && walWriter.cfg == DEFAULT_CONFIG
                && (walDir.files, walWriter.Value()) == Started(old(walDir.files))
    {
      var writer: WALWriter? := null;
      if walDir != null {
        writer := new WALWriter(walDir, encryptor, DEFAULT_CONFIG);
      }
      this.json, this.hash, this.bloom, this.walWriter := json, bloom.hash, bloom, writer;
      lastAppliedIndex, lastAppliedTerm := 0, 0;
    }

    /** The WAL record of an entry. */
    ghost function Record(e: Entry, nonce: Nonce): Rec
      requires walWriter != null && ParseEntry(json, e.data).Some?
      reads walWriter.encryptor
    {
      Rec(walWriter.encryptor.currentKey, walWriter.encryptor.keyVersion, nonce, RecordOf(json, e))
    }

    /** `now` is the clock; `nonce`, `expired` and `room` are those of the WAL write, whose failure is only logged. */
    method Apply(data: seq<byte>, index: nat, term: nat, now: int, nonce: Nonce, expired: bool, room: nat)
      returns (result: Outcome)
      requires Valid()
      modifies this`lastAppliedIndex, this`lastAppliedTerm, bloom.counters
      modifies if walWriter == null then {} else {walWriter, walWriter.dir}
      ensures Valid()
      ensures Applied(bloom.Value(), result) == ApplyEntry(json, hash, old(bloom.Value()), data)
      ensures result == ParseError ==> lastAppliedIndex == old(lastAppliedIndex) && lastAppliedTerm == old(lastAppliedTerm)
      ensures result != ParseError ==> lastAppliedIndex == index && lastAppliedTerm == term
      ensures result != ParseError <==> ParseEntry(json, data).Some?
      ensures walWriter != null ==>
                (walWriter.dir.files, walWriter.Value()) ==
                if result == Nil then
                  Attempted(walWriter.cfg, old(walWriter.dir.files), old(walWriter.Value()),
                            Frame(walWriter.encryptor.aead, Record(Entry(data, index, term, now), nonce)),
                            expired, room)
                else (old(walWriter.dir.files), old(walWriter.Value()))
    {
      hide Attempted, Frame;
      var cmd: Command;
      var c := json.parseCommand(data);
      match c {
        case Some(parsed) => cmd := parsed;
        case None =>
          var fsmCmd := json.parseFsm(data);
          match fsmCmd {
            case None => return ParseError;
            case Some(parsed) => cmd := Command(parsed.kind, parsed.item, parsed.timestamp);
          }
      }
      if cmd.kind == ADD {
        var ok := bloom.Add(cmd.item);
        result := if ok then Nil else Overflow;
      } else if cmd.kind == REMOVE {
        bloom.Remove(cmd.item);
        result := Nil;
      } else {
        result := UnknownType;
      }
      if walWriter != null && result == Nil {
        var walData := json.renderFsm(FsmCommand(cmd.kind, cmd.item, now, index, term));
        var written := walWriter.Write(walData, nonce, expired, room);
      }
      lastAppliedIndex := index;
      lastAppliedTerm := term;
    }

    method Snapshot() returns (bloomData: array<byte>)
      requires Valid()
      ensures fresh(bloomData) && bloomData[..] == Serialize(bloom.Value())
    {
      bloomData := SerializeFilter(bloom);
    }

    /** On error nothing changes; the raw format leaves the applied position alone. */
    method Restore(data: seq<byte>) returns (err: Option<LoadError>)
      modifies this
      ensures err == ErrorOf(Restored(json, data))
      ensures err == None ==> fresh(bloom) && bloom.Valid() && bloom.hash == hash && Restored(json, data) == Ok(bloom.Value())
      ensures err == None ==> (Valid() <==> bloom.m >= 2)
      ensures err != None ==> bloom == old(bloom)
      ensures (lastAppliedIndex, lastAppliedTerm) ==
              match json.parseSnapshot(data)
              case Some(d) => if err == None then (d.index, d.term) else old((lastAppliedIndex, lastAppliedTerm))
              case None => old((lastAppliedIndex, lastAppliedTerm))
    {
      hide Deserialize;
      var snapshotData := json.parseSnapshot(data);
      match snapshotData
      case Some(d) =>
        var newFilter, e := DeserializeFilter(d.bloomFilter, hash);
        if newFilter == null {
          return e;
        }
        UsableIff(d.bloomFilter);
        bloom := newFilter;
        lastAppliedIndex := d.index;
        lastAppliedTerm := d.term;
        return None;
      case None =>
        var newFilter, e := DeserializeFilter(data, hash);
        if newFilter == null {
          return e;
        }
        UsableIff(data);
        bloom := newFilter;
        return None;
    }
  }

  /** fsmSnapshot.Persist */
  method Persist(json: Json, bloomData: array<byte>, now: int) returns (text: seq<byte>)
    ensures text == Persisted(json, bloomData[..], now)
  {
    var snapshotData := SnapshotData(bloomData[..], now, 0, 0);
    text := json.renderSnapshot(snapshotData);
  }

  /** No raw filter encoding can start a JSON text, so it never parses as one. */
  lemma DispatchUnambiguous(json: Json, f: Filter)
    requires json.Lawful() && Encodable(f)
    ensures Serialize(f) != [] && Serialize(f)[0] <= 6 && json.parseSnapshot(Serialize(f)) == None
  {
    hide Checksum, Deserialize;
    var data := Serialize(f);
    Parts(f);
    assert data[0..4][0] == data[0];
    HighByte(f.m);
  }

  lemma HighByte(m: nat)
    requires m <= MAX_FILTER_SIZE
    ensures PutUint32(m)[0] <= 6
  {}

  /** Both snapshot formats restore the filter they were taken of, exactly when it is within the decoder's limits. */
  lemma RestoreRoundTrip(json: Json, f: Filter, now: int)
    requires json.Lawful() && f.Valid()
    ensures Restored(json, Persisted(json, Serialize(f), now)) == Ok(f) <==> Encodable(f)
    ensures Encodable(f) ==> Restored(json, Serialize(f)) == Ok(f)
  {
    hide Serialize, Deserialize;
    RoundTripIff(f);
    if Encodable(f) { DispatchUnambiguous(json, f); }
  }
}
