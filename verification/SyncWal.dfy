/** The batching synchronous writer (SyncWALWriter in internal/wal/async_wal.go). */
module SyncWal {
  import opened Bytes

  /** The buffer, and what the underlying writer has accepted. */
  datatype Sync = Sync(buffer: seq<seq<byte>>, log: seq<seq<byte>>)

  /** Flush when the underlying writer accepts `room` more records and then fails. */
  function Flushed(s: Sync, room: nat): Sync {
    Sync([], s.log + if room < |s.buffer| then s.buffer[..room] else s.buffer)
  }

  predicate FlushOk(s: Sync, room: nat) { |s.buffer| <= room }

  function Buffered(s: Sync, data: seq<byte>): Sync { s.(buffer := s.buffer + [data]) }

  class SyncWALWriter {
    const maxSize: int
    var buffer: seq<seq<byte>>
    var log: seq<seq<byte>>

    ghost function Value(): Sync
      reads this
    {
      Sync(buffer, log)
    }

    constructor (maxSize: int)
      ensures Value() == Sync([], []) && this.maxSize == maxSize
    {
      this.maxSize, buffer, log := maxSize, [], [];
    }

    method Flush(room: nat) returns (ok: bool)
      modifies this
      ensures Value() == Flushed(old(Value()), room) && ok == FlushOk(old(Value()), room)
    {
      if |buffer| == 0 {
        return true;
      }
      var data := buffer;
      buffer := [];
      for i := 0 to |data|
        invariant i <= room && buffer == [] && log == old(log) + data[..i]
      {
        if i == room {
          return false;
        }
        assert data[..i + 1] == data[..i] + [data[i]];
        log := log + [data[i]];
      }
      assert data[..|data|] == data;
      return true;
    }

    method Write(data: seq<byte>, room: nat) returns (ok: bool)
      modifies this
      ensures var s := Buffered(old(Value()), data);
              if |s.buffer| >= maxSize then Value() == Flushed(s, room) && ok == FlushOk(s, room)
              else Value() == s && ok
    {
      buffer := buffer + [data];
      ok := true;
      if |buffer| >= maxSize {
        ok := Flush(room);
      }
    }
  }

  /** A flush empties the buffer; it succeeds exactly when all of it has been written, and else a shorter part has. */
  lemma FlushExact(s: Sync, room: nat)
    ensures var t := Flushed(s, room);
            && t.buffer == [] && s.log <= t.log && t.log[|s.log|..] <= s.buffer
            && |t.log| == |s.log| + (if room < |s.buffer| then room else |s.buffer|)
            && (FlushOk(s, room) <==> t.log == s.log + s.buffer)
  {
    var t := Flushed(s, room);
    if room < |s.buffer| {
      assert t.log[|s.log|..] == s.buffer[..room];
      assert |t.log| < |s.log + s.buffer|;
    } else {
      assert t.log[|s.log|..] == s.buffer;
    }
  }

  // ---- runs ----

  datatype Op = Write(data: seq<byte>, room: nat) | Flush(room: nat)

  function Apply(max: int, s: Sync, op: Op): (Sync, bool) {
    match op
    case Flush(room) => (Flushed(s, room), FlushOk(s, room))
    case Write(data, room) =>
      var t := Buffered(s, data);
      if |t.buffer| >= max then (Flushed(t, room), FlushOk(t, room)) else (t, true)
  }

  function Run(max: int, ops: seq<Op>): Sync {
    if ops == [] then Sync([], []) else Apply(max, Run(max, ops[..|ops| - 1]), ops[|ops| - 1]).0
  }

  /** No call returned an error. */
  predicate NoError(max: int, ops: seq<Op>) {
    ops != [] ==> NoError(max, ops[..|ops| - 1]) && Apply(max, Run(max, ops[..|ops| - 1]), ops[|ops| - 1]).1
  }

  /** Everything given to Write. */
  function Given(ops: seq<Op>): seq<seq<byte>> {
    if ops == [] then []
    else Given(ops[..|ops| - 1]) + if ops[|ops| - 1].Write? then [ops[|ops| - 1].data] else []
  }

  lemma ApplyExact(max: int, s: Sync, op: Op)
    ensures var (t, ok) := Apply(max, s, op);
            var all := s.log + s.buffer + if op.Write? then [op.data] else [];
            && |t.log + t.buffer| <= |all|
            && (ok ==> t.log + t.buffer == all)
            && (!ok ==> |t.log + t.buffer| < |all|)
  {
    var u := if op.Write? then Buffered(s, op.data) else s;
    assert s.log + s.buffer + [] == s.log + s.buffer;
    if op.Write? { assert s.log + (s.buffer + [op.data]) == s.log + s.buffer + [op.data]; }
    assert u.log + u.buffer + [] == u.log + u.buffer;
  }

  /** The buffer never reaches the batch size. */
  lemma {:induction false} BufferBounded(max: int, ops: seq<Op>)
    requires max >= 1
    ensures |Run(max, ops).buffer| < max
  {
    if ops != [] { BufferBounded(max, ops[..|ops| - 1]); }
  }

  /**
   * The log and then the buffer are exactly what was written, in order, as long as no call reports an
   * error, and only so long: a failed flush has emptied the buffer, and what it did not write is lost.
   */
  lemma {:induction false} SyncConservation(max: int, ops: seq<Op>)
    ensures var s := Run(max, ops);
            && |s.log + s.buffer| <= |Given(ops)|
            && (s.log + s.buffer == Given(ops) <==> NoError(max, ops))
            && (|s.log + s.buffer| == |Given(ops)| <==> NoError(max, ops))
  {
    if ops != [] {
      var before, op := ops[..|ops| - 1], ops[|ops| - 1];
      SyncConservation(max, before);
      ApplyExact(max, Run(max, before), op);
    }
  }
}
