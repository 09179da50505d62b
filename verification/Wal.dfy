/** The rolling WAL writer and its reader (internal/wal/encryptor.go). */
module Wal {
  import opened Bytes
  import opened Encryptor
  import opened WalFormat
  import opened WalDirectory

  datatype Config = Config(maxFileSize: int, maxFiles: nat)

  /** What NewWALWriter uses. */
  const DEFAULT_CONFIG := Config(100 * 1024 * 1024, 10)

  /** currentIndex and currentSize. */
  datatype Writer = Writer(index: nat, size: int)

  /** openCurrentFile: an existing file is kept, a missing one created empty. */
  function Opened(disk: Disk, i: nat): (r: Disk)
    ensures i in r
  {
    if i in disk then disk else disk[i := []]
  }

  ghost function NextIndex(disk: Disk): nat {
    var files := Listing(disk.Keys);
    if files == [] then 1 else files[|files| - 1] + 1
  }

  /** NewWALWriterWithConfig */
  ghost function Started(disk: Disk): (Disk, Writer) {
    var i := NextIndex(disk);
    var d := Opened(disk, i);
    (d, Writer(i, |d[i]|))
  }

  /** doRollFile */
  ghost function Rolled(cfg: Config, disk: Disk, w: Writer): (Disk, Writer) {
    var i := w.index + 1;
    var d := Opened(disk, i);
    (Cleaned(d, cfg.maxFiles), Writer(i, |d[i]|))
  }

  predicate NeedsRoll(cfg: Config, size: int, frame: seq<byte>, expired: bool) {
    size + |frame| > cfg.maxFileSize || expired
  }

  /** Writing to the open file; a file that has been deleted takes the bytes with it. */
  function Appended(disk: Disk, i: nat, bytes: seq<byte>): Disk {
    if i in disk then disk[i := disk[i] + bytes] else disk
  }

  ghost function MaybeRolled(cfg: Config, disk: Disk, w: Writer, frame: seq<byte>, expired: bool): (Disk, Writer) {
    if NeedsRoll(cfg, w.size, frame, expired) then Rolled(cfg, disk, w) else (disk, w)
  }

  ghost function Written(cfg: Config, disk: Disk, w: Writer, frame: seq<byte>, expired: bool): (Disk, Writer) {
    var (d, v) := MaybeRolled(cfg, disk, w, frame, expired);
    (Appended(d, v.index, frame), v.(size := v.size + |frame|))
  }

  /** A write the file takes only `room` bytes of leaves those behind and does not count them. */
  ghost function Attempted(cfg: Config, disk: Disk, w: Writer, frame: seq<byte>, expired: bool, room: nat)
    : (Disk, Writer)
  {
    if room >= |frame| then Written(cfg, disk, w, frame, expired)
    else
      var (d, v) := MaybeRolled(cfg, disk, w, frame, expired);
      (Appended(d, v.index, frame[..room]), v)
  }

  class WALWriter {
    const dir: Directory
    const encryptor: WALEncryptor
    const cfg: Config
    var currentIndex: nat
    var currentSize: int

    ghost function Value(): Writer
      reads this
    {
      Writer(currentIndex, currentSize)
    }

    constructor (dir: Directory, encryptor: WALEncryptor, cfg: Config)
      modifies dir
      ensures this.dir == dir && this.encryptor == encryptor && this.cfg == cfg
      ensures (dir.files, Value()) == Started(old(dir.files))
    {
      this.dir, this.encryptor, this.cfg := dir, encryptor, cfg;
      var list := dir.GetWALFiles();
      currentIndex := if list.Length > 0 then list[list.Length - 1].index + 1 else 1;
      currentSize := 0;
      new;
      assert Indices(list[..]) == Listing(dir.files.Keys);
      OpenCurrentFile();
    }

    method OpenCurrentFile()
      modifies this`currentSize, dir
      ensures dir.files == Opened(old(dir.files), currentIndex) && currentSize == |dir.files[currentIndex]|
    {
      if currentIndex !in dir.files {
        dir.files := dir.files[currentIndex := []];
      }
      currentSize := |dir.files[currentIndex]|;
    }

    method DoRollFile()
      modifies this, dir
      ensures (dir.files, Value()) == Rolled(cfg, old(dir.files), old(Value()))
    {
      currentIndex := currentIndex + 1;
      OpenCurrentFile();
      var panicked := dir.CleanupOldFiles(cfg.maxFiles);
    }

    /** `expired` is whether the rolling interval has passed, `room` how many bytes the file takes before it fails. */
    method Write(data: seq<byte>, nonce: Nonce, expired: bool, room: nat) returns (ok: bool)
      modifies this, dir
      ensures var frame := Frame(encryptor.aead, Rec(encryptor.currentKey, encryptor.keyVersion, nonce, data));
              && ok == (room >= |frame|)
              && (ok ==> (dir.files, Value()) == Written(cfg, old(dir.files), old(Value()), frame, expired))
              && (dir.files, Value()) == Attempted(cfg, old(dir.files), old(Value()), frame, expired, room)
    {
      hide Frame, Rolled;
      var encrypted := encryptor.Encrypt(data, nonce);
      var needRoll := false;
      if currentSize + |encrypted| > cfg.maxFileSize {
        needRoll := true;
      }
      if expired {
        needRoll := true;
      }
      if needRoll {
        DoRollFile();
      }
      var n := if room < |encrypted| then room else |encrypted|;
      assert encrypted[..|encrypted|] == encrypted;
      if currentIndex in dir.files {
        dir.files := dir.files[currentIndex := dir.files[currentIndex] + encrypted[..n]];
      }
      if n < |encrypted| {
        return false;
      }
      currentSize := currentSize + n;
      return true;
    }
  }

  /** Files parsed one after the other. */
  ghost function ReadFiles(a: Aead, cache: map<u32, Key>, disk: Disk, order: seq<nat>): Parsed
    requires forall i | i in order :: i in disk
  {
    if order == [] then Records([])
    else
      match Parse(a, cache, disk[order[0]])
      case Panicked => Panicked
      case Records(rs) => Prepend(rs, ReadFiles(a, cache, disk, order[1..]))
  }

  ghost function AllRecords(a: Aead, cache: map<u32, Key>, disk: Disk): Parsed {
    ReadFiles(a, cache, disk, Listing(disk.Keys))
  }

  class WALReader {
    const dir: Directory
    const encryptor: WALEncryptor

    constructor (dir: Directory, encryptor: WALEncryptor)
      ensures this.dir == dir && this.encryptor == encryptor
    {
      this.dir, this.encryptor := dir, encryptor;
    }

    method ReadAll() returns (r: Parsed)
      ensures r == AllRecords(encryptor.aead, encryptor.keyCache, dir.files)
    {
      hide Parse, Listing;
      var a, cache, disk := encryptor.aead, encryptor.keyCache, dir.files;
      var list := dir.GetWALFiles();
      var files := list[..];
      ghost var order := Indices(files);
      assert order == Listing(disk.Keys);
      assert forall i | 0 <= i < |order| :: order[i] in order;
      var results: seq<seq<byte>> := [];
      assert order[0..] == order;
      for n := 0 to |files|
        invariant AllRecords(a, cache, disk) == Prepend(results, ReadFiles(a, cache, disk, order[n..]))
      {
        var data := WalFormat.ReadFile(a, cache, disk[files[n].index]);
        assert order[n..][0] == files[n].index && order[n..][1..] == order[n + 1..];
        match data
        case Panicked => return Panicked;
        case Records(rs) =>
          PrependTwice(results, rs, ReadFiles(a, cache, disk, order[n + 1..]));
          results := results + rs;
      }
      return Records(results);
    }
  }
}
