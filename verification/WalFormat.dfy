/** Frames in a WAL file and the parser that reads them back (WALReader.readFile). */
module WalFormat {
  import opened Bytes
  import opened Encryptor

  /** Frames one after the other. */
  function Frames(a: Aead, recs: seq<Rec>): seq<byte> {
    if recs == [] then [] else Frames(a, recs[..|recs| - 1]) + Frame(a, recs[|recs| - 1])
  }

  datatype Parsed = Records(records: seq<seq<byte>>) | Panicked

  function Prepend(records: seq<seq<byte>>, p: Parsed): Parsed {
    match p
    case Records(rs) => Records(records + rs)
    case Panicked => Panicked
  }

  lemma PrependTwice(r: seq<seq<byte>>, s: seq<seq<byte>>, p: Parsed)
    ensures Prepend(r, Prepend(s, p)) == Prepend(r + s, p)
  {
    if p.Records? { assert r + (s + p.records) == r + s + p.records; }
  }

  /** Records up to the first incomplete or undecryptable one. */
  function Parse(a: Aead, cache: map<u32, Key>, data: seq<byte>): Parsed
    decreases |data|
  {
    if |data| < 4 then Records([])
    else
      var recordLen: int := 4 + Uint32(data[..4]);
      if recordLen > |data| then Records([])
      else
        match Decrypt(a, cache, data[..recordLen])
        case Error => Records([])
        case Panic => Panicked
        case Plain(plain) => Prepend([plain], Parse(a, cache, data[recordLen..]))
  }

  /** The offset-driven loop of readFile. */
  method ReadFile(a: Aead, cache: map<u32, Key>, data: seq<byte>) returns (r: Parsed)
    ensures r == Parse(a, cache, data)
  {
    hide Decrypt, Uint32;
    var records: seq<seq<byte>> := [];
    var offset := 0;
    assert data[0..] == data;
    while offset < |data|
      invariant 0 <= offset <= |data|
      invariant Parse(a, cache, data) == Prepend(records, Parse(a, cache, data[offset..]))
    {
      ghost var rest := data[offset..];
      if offset + 4 > |data| {
        return Records(records);
      }
      var totalLen: int := Uint32(data[offset..offset + 4]);
      assert data[offset..offset + 4] == rest[..4];
      var recordLen := 4 + totalLen;
      if offset + recordLen > |data| {
        return Records(records);
      }
      var recordData := data[offset..offset + recordLen];
      assert recordData == rest[..recordLen];
      offset := offset + recordLen;
      assert data[offset..] == rest[recordLen..];
      var d := Decrypt(a, cache, recordData);
      match d
      case Error => return Records(records);
      case Panic => return Panicked;
      case Plain(plain) =>
        PrependTwice(records, [plain], Parse(a, cache, data[offset..]));
        records := records + [plain];
    }
    assert data[offset..] == [];
    return Records(records);
  }

  function Plains(recs: seq<Rec>): seq<seq<byte>> {
    seq(|recs|, i requires 0 <= i < |recs| => recs[i].plain)
  }

  /** The records before the first one whose key version the reader does not have. */
  function Readable(cache: map<u32, Key>, recs: seq<Rec>): seq<Rec> {
    if recs == [] || recs[0].version !in cache then []
    else [recs[0]] + Readable(cache, recs[1..])
  }

  /** Where the reader knows a version, it knows the key the record was sealed with. */
  ghost predicate Agrees(cache: map<u32, Key>, recs: seq<Rec>) {
    forall r | r in recs :: r.version in cache ==> cache[r.version] == r.key
  }

  ghost predicate AllFit(a: Aead, recs: seq<Rec>) { forall r | r in recs :: Fits(a, r) }

  /** Bytes that cannot be taken for a whole record. */
  ghost predicate Torn(t: seq<byte>) { |t| < 4 || 4 + Uint32(t[..4]) > |t| }

  /** Any strict prefix of a frame is torn. */
  lemma StrictPrefixIsTorn(a: Aead, r: Rec, n: nat)
    requires Fits(a, r) && n < |Frame(a, r)|
    ensures Torn(Frame(a, r)[..n])
  {
    hide Frame;
    FrameParts(a, r);
    if n >= 4 { assert Frame(a, r)[..n][..4] == Frame(a, r)[..4]; }
  }

  lemma {:induction false} FramesCons(a: Aead, recs: seq<Rec>)
    requires recs != []
    ensures Frames(a, recs) == Frame(a, recs[0]) + Frames(a, recs[1..])
  {
    hide Frame;
    if |recs| > 1 {
      var n := |recs| - 1;
      FramesCons(a, recs[..n]);
      assert recs[..n][0] == recs[0] && recs[..n][1..] == recs[1..][..n - 1];
      assert recs[1..][|recs[1..]| - 1] == recs[n];
    } else {
      assert recs[..0] == [] && recs[1..] == [];
    }
  }

  lemma ParseTorn(a: Aead, cache: map<u32, Key>, tail: seq<byte>)
    requires Torn(tail)
    ensures Parse(a, cache, tail) == Records([])
  {
    hide Decrypt, Uint32;
  }

  /** A frame in front is one record more, or the end if its key version is unknown. */
  lemma ParseFrame(a: Aead, cache: map<u32, Key>, r: Rec, rest: seq<byte>)
    requires a.Lawful() && Fits(a, r) && (r.version in cache ==> cache[r.version] == r.key)
    ensures Parse(a, cache, Frame(a, r) + rest)
            == if r.version in cache then Prepend([r.plain], Parse(a, cache, rest)) else Records([])
  {
    hide Frame, Decrypt, Uint32, Fits;
    var f := Frame(a, r);
    var data := f + rest;
    FrameParts(a, r);
    assert data[..4] == f[..4] && data[..|f|] == f && data[|f|..] == rest;
    DecryptFrame(a, cache, r);
  }

  /**
   * Parsing a file made of whole frames and a torn tail gives exactly the plaintexts of its
   * records, up to the first whose key version the reader lacks; it never panics.
   */
  lemma {:induction false} ParseFrames(a: Aead, cache: map<u32, Key>, recs: seq<Rec>, tail: seq<byte>)
    requires a.Lawful() && AllFit(a, recs) && Agrees(cache, recs) && Torn(tail)
    ensures Parse(a, cache, Frames(a, recs) + tail) == Records(Plains(Readable(cache, recs)))
  {
    hide Frame, Parse, Torn, Fits;
    if recs == [] {
      assert Frames(a, recs) + tail == tail;
      ParseTorn(a, cache, tail);
    } else {
      var r, rest := recs[0], Frames(a, recs[1..]) + tail;
      FramesCons(a, recs);
      assert Frames(a, recs) + tail == Frame(a, r) + rest;
      ParseFrame(a, cache, r, rest);
      if r.version in cache {
        ParseFrames(a, cache, recs[1..], tail);
        var good := Readable(cache, recs[1..]);
        assert Plains([r] + good) == [r.plain] + Plains(good);
      }
    }
  }

  /** Whatever follows frames of known versions is read on from there. */
  lemma {:induction false} ParseBeyond(a: Aead, cache: map<u32, Key>, recs: seq<Rec>, rest: seq<byte>)
    requires a.Lawful() && AllFit(a, recs) && Agrees(cache, recs) && forall r | r in recs :: r.version in cache
    ensures Parse(a, cache, Frames(a, recs) + rest) == Prepend(Plains(recs), Parse(a, cache, rest))
  {
    hide Frame, Parse, Fits;
    if recs == [] {
      assert Frames(a, recs) + rest == rest;
      PrependNothing(Parse(a, cache, rest));
    } else {
      var r, tail := recs[0], recs[1..];
      FramesCons(a, recs);
      hide Frames;
      assert Frames(a, recs) + rest == Frame(a, r) + (Frames(a, tail) + rest);
      ParseFrame(a, cache, r, Frames(a, tail) + rest);
      ParseBeyond(a, cache, tail, rest);
      PrependTwice([r.plain], Plains(tail), Parse(a, cache, rest));
      assert Plains(recs) == [r.plain] + Plains(tail);
    }
  }

  lemma PrependNothing(p: Parsed)
    ensures Prepend(Plains([]), p) == p
  {
    if p.Records? { assert Plains([]) + p.records == p.records; }
  }

  /** Nothing can be read at the start of these bytes: no whole record, or one that is refused. */
  ghost predicate Unreadable(a: Aead, cache: map<u32, Key>, data: seq<byte>) {
    Torn(data) || Decrypt(a, cache, data[..4 + Uint32(data[..4])]) == Error
  }

  lemma UnreadableIff(a: Aead, cache: map<u32, Key>, data: seq<byte>)
    ensures Parse(a, cache, data) == Records([]) <==> Unreadable(a, cache, data)
  {
    hide Decrypt, Uint32;
  }

  /**
   * A short write that does not end the session. The records in front of it are read back, and those
   * appended behind it are all lost exactly when the bytes it left, together with what follows them, make
   * no record: with the length field among them, when the record that would take the place of the
   * failed one is cut off or refused.
   */
  lemma ShortWriteLoses(a: Aead, cache: map<u32, Key>, recs: seq<Rec>, r: Rec, kept: nat, later: seq<Rec>)
    requires a.Lawful() && AllFit(a, recs) && Agrees(cache, recs) && (forall x | x in recs :: x.version in cache)
    requires Fits(a, r) && kept < |Frame(a, r)|
    ensures var junk := Frame(a, r)[..kept] + Frames(a, later);
            && (Parse(a, cache, Frames(a, recs) + junk) == Records(Plains(recs)) <==> Unreadable(a, cache, junk))
            && (kept >= 4 ==> (Torn(junk) <==> |junk| < |Frame(a, r)|))
  {
    hide Frame, Frames, Parse, Torn, AllFit, Agrees;
    var f := Frame(a, r);
    var junk := f[..kept] + Frames(a, later);
    ParseBeyond(a, cache, recs, junk);
    UnreadableIff(a, cache, junk);
    if Parse(a, cache, junk).Records? {
      var more := Parse(a, cache, junk).records;
      assert Plains(recs) + more == Plains(recs) <==> more == [] by { LengthTells(Plains(recs), more); }
    }
    FrameParts(a, r);
    if kept >= 4 {
      assert junk[..4] == f[..4];
      TornIff(junk);
    }
  }

  lemma LengthTells(p: seq<seq<byte>>, q: seq<seq<byte>>)
    ensures p + q == p <==> q == []
  {
    assert |p + q| == |p| + |q|;
  }

  lemma TornIff(t: seq<byte>)
    requires |t| >= 4
    ensures Torn(t) <==> |t| < 4 + Uint32(t[..4])
  {}

  lemma {:induction false} ReadableAll(cache: map<u32, Key>, recs: seq<Rec>)
    ensures |Readable(cache, recs)| <= |recs|
    ensures Readable(cache, recs) == recs <==> forall r | r in recs :: r.version in cache
    ensures |Readable(cache, recs)| == |recs| ==> Readable(cache, recs) == recs
  {
    if recs != [] {
      ReadableAll(cache, recs[1..]);
      assert recs == [recs[0]] + recs[1..];
    }
  }
}
