/** Serialisation of filters and what its checksum detects (pkg/bloom/counting.go). */
module FilterCodec {
  import opened Bytes
  import opened Counters
  import opened CountingFilter
  import Crc32

  const MAX_FILTER_SIZE := 100 * 1024 * 1024
  const MAX_HASH_FUNCTIONS := 20

  datatype Decoded = Ok(filter: Filter) | ErrInvalidData | ErrChecksumMismatch

  /** The filters Deserialize can produce. */
  ghost predicate Encodable(f: Filter) {
    f.Valid() && f.m <= 104_857_600 && 1 <= f.k <= 20
  }

  /** crc32.Checksum, as the uint32 the encoding stores. */
  function Checksum(data: seq<byte>): u32 {
    Uint32(Crc32.PutChecksum(Crc32.Checksum(data)))
  }

  lemma PutChecksumBytes(data: seq<byte>)
    ensures PutUint32(Checksum(data)) == Crc32.PutChecksum(Crc32.Checksum(data))
  {
    GetThenPut(Crc32.PutChecksum(Crc32.Checksum(data)));
  }

  function Body(f: Filter): seq<byte> {
    PutUint32(f.m % 0x1_0000_0000) + PutUint32(f.k % 0x1_0000_0000) + f.counters
  }

  /** Serialize, with the checksum function left open. */
  function Encode(sum: seq<byte> -> u32, f: Filter): seq<byte> {
    Body(f) + PutUint32(sum(Body(f)))
  }

  /** Deserialize, with the checksum function left open. */
  function Decode(sum: seq<byte> -> u32, data: seq<byte>): Decoded {
    if |data| < 12 then ErrInvalidData
    else
      var m: int := Uint32(data[0..4]);
      var k: int := Uint32(data[4..8]);
      if m > MAX_FILTER_SIZE then ErrInvalidData
      else if k < 1 || k > MAX_HASH_FUNCTIONS then ErrInvalidData
      else
        var expectedLen := 8 + m + 4;
        if |data| != expectedLen then ErrInvalidData
        else if Uint32(data[expectedLen - 4..expectedLen]) != sum(data[..expectedLen - 4])
        then ErrChecksumMismatch
        else Ok(Filter(m, k, data[8..8 + m]))
  }

  function Serialize(f: Filter): seq<byte> { Encode(Checksum, f) }

  function Deserialize(data: seq<byte>): Decoded { Decode(Checksum, data) }

  lemma BodyParts(f: Filter, tail: seq<byte>)
    requires Encodable(f) && |tail| == 4
    ensures var data := Body(f) + tail;
            && |data| == 12 + f.m
            && data[0..4] == PutUint32(f.m) && data[4..8] == PutUint32(f.k) && data[8..8 + f.m] == f.counters
            && data[..8 + f.m] == Body(f) && data[8 + f.m..12 + f.m] == tail
  {
    hide PutUint32;
    BodyIs(f.m, f.k, f.counters, PutUint32(f.m), PutUint32(f.k));
    Sections(PutUint32(f.m), PutUint32(f.k), f.counters, tail);
  }

  lemma Sections(a: seq<byte>, b: seq<byte>, c: seq<byte>, d: seq<byte>)
    requires |a| == |b| == |d| == 4
    ensures var s := a + b + c + d;
            && s[0..4] == a && s[4..8] == b && s[8..8 + |c|] == c
            && s[..8 + |c|] == a + b + c && s[8 + |c|..12 + |c|] == d
  {}

  /** The bytes of an encoding, one by one: big-endian m and k, the counters, the checksum of all that. */
  lemma Layout(f: Filter)
    requires Encodable(f)
    ensures var d, n := Serialize(f), 8 + f.m;
            && |d| == n + 4
            && Number(d[0], d[1], d[2], d[3]) == f.m
            && Number(d[4], d[5], d[6], d[7]) == f.k
            && d[8..n] == f.counters && d[n..] == Crc32.PutChecksum(Crc32.Checksum(d[..n]))
  {
    hide Crc32.PutChecksum, Crc32.Checksum, Checksum;
    var d, n, tail := Serialize(f), 8 + f.m, PutUint32(Checksum(Body(f)));
    PutChecksumBytes(Body(f));
    BodyParts(f, tail);
    assert d == Body(f) + tail && d[n..] == d[n..n + 4];
    PutThenGet(f.m);
    PutThenGet(f.k);
    BigEndian(d[0..4]);
    BigEndian(d[4..8]);
  }

  lemma EncodeDecode(sum: seq<byte> -> u32, f: Filter)
    requires Encodable(f)
    ensures Decode(sum, Encode(sum, f)) == Ok(f)
  {
    var s := sum(Body(f));
    BodyParts(f, PutUint32(s));
    PutThenGet(f.m);
    PutThenGet(f.k);
    PutThenGet(s);
  }

  lemma DecodeEncode(sum: seq<byte> -> u32, data: seq<byte>)
    requires Decode(sum, data).Ok?
    ensures Encodable(Decode(sum, data).filter) && Encode(sum, Decode(sum, data).filter) == data
  {
    var f := Decode(sum, data).filter;
    DecodedBody(data, f.m);
    GetThenPut(data[8 + f.m..12 + f.m]);
    assert data == data[..8 + f.m] + data[8 + f.m..12 + f.m];
  }

  lemma DecodedBody(data: seq<byte>, m: nat)
    requires |data| == 12 + m && Uint32(data[0..4]) == m
    ensures Body(Filter(m, Uint32(data[4..8]), data[8..8 + m])) == data[..8 + m]
  {
    GetThenPut(data[0..4]);
    GetThenPut(data[4..8]);
    BodyIs(m, Uint32(data[4..8]), data[8..8 + m], data[0..4], data[4..8]);
    Slices(data, 8 + m);
  }

  lemma BodyIs(m: u32, k: u32, c: Counters, a: seq<byte>, b: seq<byte>)
    requires a == PutUint32(m) && b == PutUint32(k)
    ensures Body(Filter(m, k, c)) == a + b + c
  {
    hide PutUint32;
  }

  lemma Slices(data: seq<byte>, n: nat)
    requires 8 <= n <= |data|
    ensures data[..n] == data[0..4] + data[4..8] + data[8..n]
  {}

  /** Deserialize(Serialize(f)) == f for every filter within the decoder's limits. */
  lemma RoundTrip(f: Filter)
    requires Encodable(f)
    ensures Deserialize(Serialize(f)) == Ok(f)
  {
    EncodeDecode(Checksum, f);
  }

  /** Every accepted byte string is the serialisation of the filter it decodes to. */
  lemma Canonical(data: seq<byte>)
    requires Deserialize(data).Ok?
    ensures Encodable(Deserialize(data).filter) && Serialize(Deserialize(data).filter) == data
  {
    DecodeEncode(Checksum, data);
  }

  /** No other filter survives the round trip. */
  lemma RoundTripIff(f: Filter)
    requires f.Valid()
    ensures Deserialize(Serialize(f)) == Ok(f) <==> Encodable(f)
  {
    hide Serialize, Deserialize;
    if Encodable(f) { RoundTrip(f); }
    if Deserialize(Serialize(f)) == Ok(f) { Canonical(Serialize(f)); }
  }

  /** What Deserialize accepts can be hashed into exactly when it has two counters or more. */
  lemma UsableIff(data: seq<byte>)
    requires Deserialize(data).Ok?
    ensures Deserialize(data).filter.Usable() <==> Deserialize(data).filter.m >= 2
  {
    Canonical(data);
  }

  /** And it does accept smaller ones, of which m - 1 is no divisor: every one with a valid k. */
  lemma TinyAccepted(f: Filter)
    requires f.Valid() && f.m < 2 && 1 <= f.k <= MAX_HASH_FUNCTIONS
    ensures Deserialize(Serialize(f)) == Ok(f) && !f.Usable()
  {
    RoundTrip(f);
  }

  // ---- corruption ----

  /** data and data' have the same length and differ at most in the four bytes from p on. */
  ghost predicate SameOutside(data: seq<byte>, data': seq<byte>, p: nat) {
    |data| == |data'| && p + 4 <= |data| && data[..p] == data'[..p] && data[p + 4..] == data'[p + 4..]
  }

  /** The one corruption of four neighbouring bytes that goes unnoticed. */
  function Flip(data: seq<byte>, n: nat): seq<byte>
    requires 2 <= n && n + 2 <= |data|
  {
    data[..n - 2] + [Crc32.XorByte(data[n - 2], 0x61), Crc32.XorByte(data[n - 1], 0xD8)]
    + [Crc32.XorByte(data[n], 0xF4), Crc32.XorByte(data[n + 1], 0xEE)] + data[n + 2..]
  }

  /** What acceptance of a string of unchanged length means. */
  lemma Accepted(sum: seq<byte> -> u32, m: nat, data': seq<byte>)
    requires m <= MAX_FILTER_SIZE && |data'| == 12 + m
    ensures Decode(sum, data').Ok? <==>
            && Uint32(data'[0..4]) == m && 1 <= Uint32(data'[4..8]) <= MAX_HASH_FUNCTIONS
            && data'[8 + m..] == PutUint32(sum(data'[..8 + m]))
  {
    var n := 8 + m;
    assert data'[n..n + 4] == data'[n..];
    PutThenGet(sum(data'[..n]));
    GetThenPut(data'[n..]);
  }

  /** The last four bytes are the checksum of the first n. */
  ghost predicate Sealed(data: seq<byte>, n: nat) {
    |data| == n + 4 && data[n..] == Crc32.PutChecksum(Crc32.Checksum(data[..n]))
  }

  lemma PutChecksumInjective(x: bv32, y: bv32)
    requires Crc32.PutChecksum(x) == Crc32.PutChecksum(y)
    ensures x == y
  {
    Crc32.GetPutChecksum(x);
    Crc32.GetPutChecksum(y);
  }

  lemma SplitAt(s: seq<byte>, p: nat, q: nat, n: nat)
    requires p <= q <= n <= |s|
    ensures s[..n] == s[..p] + s[p..q] + s[q..n] && s[q..][n - q..] == s[n..] && s[q..n] == s[q..][..n - q]
    ensures s == s[..n] + s[n..]
  {}

  /** A change of four bytes in front of the checksum is always noticed. */
  lemma WindowInFront(data: seq<byte>, data': seq<byte>, n: nat, p: nat)
    requires Sealed(data, n) && Sealed(data', n) && SameOutside(data, data', p) && p + 4 <= n
    ensures data' == data
  {
    SplitAt(data, p, p + 4, n);
    SplitAt(data', p, p + 4, n);
    PutChecksumInjective(Crc32.Checksum(data[..n]), Crc32.Checksum(data'[..n]));
    Crc32.ChecksumBurst(data[..p], data[p..p + 4], data'[p..p + 4], data[p + 4..n]);
  }

  lemma StraddleShape(data: seq<byte>, data': seq<byte>, n: nat, j: nat)
    requires |data| == n + 4 && j <= 4 && j <= n && SameOutside(data, data', n - j)
    ensures data[..n] == data[..n - j] + data[n - j..n] && data'[..n] == data[..n - j] + data'[n - j..n]
    ensures data[n..][4 - j..] == data'[n..][4 - j..]
    ensures data == data[..n] + data[n..] && data' == data'[..n] + data'[n..]
  {
    assert data[n..][4 - j..] == data[n - j + 4..] && data'[n..][4 - j..] == data'[n - j + 4..];
  }

  /** A change across the end of the counters is noticed unless it is the flip. */
  lemma WindowStraddles(data: seq<byte>, data': seq<byte>, n: nat, j: nat)
    requires Sealed(data, n) && Sealed(data', n) && 1 <= j <= 3 <= n && SameOutside(data, data', n - j)
    requires data' != data
    ensures data' == Flip(data, n)
  {
    StraddleShape(data, data', n, j);
    Crc32.Straddle(data[..n - j], data[n - j..n], data'[n - j..n]);
    IsFlip(data, data', n);
  }

  lemma IsFlip(data: seq<byte>, data': seq<byte>, n: nat)
    requires Sealed(data, n) && Sealed(data', n) && n >= 2 && data'[..n - 2] == data[..n - 2]
    requires Crc32.Xor(Crc32.REGISTER.Word(data[n - 2..n]), Crc32.REGISTER.Word(data'[n - 2..n])) == 0xD861
    ensures data' == Flip(data, n)
  {
    hide Crc32.Xor, Crc32.XorByte, Crc32.PutChecksum, Crc32.Checksum;
    var a, b, a', b' := data[n - 2], data[n - 1], data'[n - 2], data'[n - 1];
    assert data[n - 2..n] == [a, b] && data'[n - 2..n] == [a', b'];
    Crc32.PairPattern(a, b, a', b');
    Crc32.PairFlip(data[..n - 2], a, b);
    FlipParts(data, n, data');
    assert data[..n] == data[..n - 2] + [a, b] && data'[..n] == data[..n - 2] + [a', b'];
  }

  /** The flip of a sealed string is sealed. */
  lemma FlipSealed(data: seq<byte>, n: nat)
    requires Sealed(data, n) && n >= 2
    ensures Sealed(Flip(data, n), n)
  {
    hide Crc32.XorByte, Crc32.PutChecksum, Crc32.Checksum;
    var a, b := data[n - 2], data[n - 1];
    FlipParts(data, n, Flip(data, n));
    Crc32.PairFlip(data[..n - 2], a, b);
    assert data[..n] == data[..n - 2] + [a, b];
  }

  lemma FlipParts(data: seq<byte>, n: nat, data': seq<byte>)
    requires 2 <= n && |data| == |data'| == n + 4
    ensures data' == Flip(data, n) <==>
            && data'[..n] == data[..n - 2] + [Crc32.XorByte(data[n - 2], 0x61), Crc32.XorByte(data[n - 1], 0xD8)]
            && data'[n..] == [Crc32.XorByte(data[n..][0], 0xF4), Crc32.XorByte(data[n..][1], 0xEE), data[n..][2], data[n..][3]]
  {
    var x, y := Crc32.XorByte(data[n - 2], 0x61), Crc32.XorByte(data[n - 1], 0xD8);
    var z, w := Crc32.XorByte(data[n], 0xF4), Crc32.XorByte(data[n + 1], 0xEE);
    Concat4(data, n, data', x, y, z, w);
  }

  lemma Concat4(data: seq<byte>, n: nat, data': seq<byte>, x: byte, y: byte, z: byte, w: byte)
    requires 2 <= n && |data| == |data'| == n + 4
    ensures data' == data[..n - 2] + [x, y] + [z, w] + data[n + 2..] <==>
            && data'[..n] == data[..n - 2] + [x, y] && data'[n..] == [z, w, data[n + 2], data[n + 3]]
  {
    var flip := data[..n - 2] + [x, y] + [z, w] + data[n + 2..];
    assert flip[..n] == data[..n - 2] + [x, y];
    assert flip[n..] == [z, w, data[n + 2], data[n + 3]];
    assert flip == flip[..n] + flip[n..] && data' == data'[..n] + data'[n..];
  }

  /** A serialised filter is sealed and carries its parameters. */
  lemma Parts(f: Filter)
    requires Encodable(f)
    ensures var data := Serialize(f);
            && Sealed(data, 8 + f.m) && data[0..4] == PutUint32(f.m) && data[4..8] == PutUint32(f.k)
  {
    PutChecksumBytes(Body(f));
    BodyParts(f, PutUint32(Checksum(Body(f))));
  }

  /** What acceptance of a string as long as a serialised filter means. */
  lemma AcceptedLike(f: Filter, data': seq<byte>)
    requires Encodable(f) && |data'| == 12 + f.m
    ensures Deserialize(data').Ok? <==>
            && Uint32(data'[0..4]) == f.m && 1 <= Uint32(data'[4..8]) <= MAX_HASH_FUNCTIONS && Sealed(data', 8 + f.m)
  {
    Accepted(Checksum, f.m, data');
    PutChecksumBytes(data'[..8 + f.m]);
  }

  /** With fewer than two counters the flip reaches the hash count, which the decoder then refuses. */
  lemma FlipRefused(f: Filter)
    requires Encodable(f) && f.m < 2
    ensures Uint32(Flip(Serialize(f), 8 + f.m)[4..8]) > MAX_HASH_FUNCTIONS
  {
    hide Crc32.XorByte, Crc32.PutChecksum, Crc32.Checksum;
    Parts(f);
    var data := Serialize(f);
    var d := Flip(data, 8 + f.m);
    assert data[4..8] == PutUint32(f.k) == [0, 0, 0, f.k];
    if f.m == 0 {
      Crc32.XorByteLarge(data[6]);
      assert d[4..8][2] == d[6] == Crc32.XorByte(data[6], 0x61);
    } else {
      Crc32.XorByteLarge(data[7]);
      assert d[4..8][3] == d[7] == Crc32.XorByte(data[7], 0x61);
    }
  }

  /**
   * A serialised filter with any change inside a window of four bytes, wherever it lies, is
   * refused, with one exception: in a filter of at least two counters, the single pattern that
   * flips the last two counters together with the first two checksum bytes.
   */
  lemma CorruptionDetected(f: Filter, data': seq<byte>, p: nat)
    requires Encodable(f) && SameOutside(Serialize(f), data', p) && data' != Serialize(f)
    ensures Deserialize(data').Ok? <==> f.m >= 2 && data' == Flip(Serialize(f), 8 + f.m)
  {
    hide Crc32.XorByte, Crc32.PutChecksum, Crc32.Checksum;
    var data, n := Serialize(f), 8 + f.m;
    Parts(f);
    AcceptedLike(f, data');
    if Deserialize(data').Ok? {
      if p + 4 <= n {
        WindowInFront(data, data', n, p);
      } else if p >= n {
        SplitAt(data, n, n, n);
        SplitAt(data', n, n, n);
      } else {
        WindowStraddles(data, data', n, n - p);
        if f.m < 2 { FlipRefused(f); }
      }
    }
    if f.m >= 2 && data' == Flip(data, n) {
      FlipSealed(data, n);
      PutThenGet(f.m);
      PutThenGet(f.k);
      assert data'[0..4] == data[0..4] && data'[4..8] == data[4..8];
    }
  }

  /** In particular any change of a single byte is refused. */
  lemma SingleByteDetected(f: Filter, i: nat, b: byte)
    requires Encodable(f) && i < |Serialize(f)| && b != Serialize(f)[i]
    ensures !Deserialize(Serialize(f)[i := b]).Ok?
  {
    hide Crc32.XorByte, Crc32.PutChecksum, Crc32.Checksum;
    var data, n := Serialize(f), 8 + f.m;
    Parts(f);
    var data' := data[i := b];
    var p := if i <= n then i else n;
    assert data[..p] == data'[..p] && data[p + 4..] == data'[p + 4..];
    CorruptionDetected(f, data', p);
    if f.m >= 2 {
      FlipMoves(data, n);
    }
  }

  /** The flip changes two neighbouring counters. */
  lemma FlipMoves(data: seq<byte>, n: nat)
    requires 2 <= n && n + 4 == |data|
    ensures Flip(data, n)[n - 2] != data[n - 2] && Flip(data, n)[n - 1] != data[n - 1]
  {
    hide Crc32.XorByte, Crc32.PutChecksum, Crc32.Checksum;
    Crc32.XorByteChanges(data[n - 2], 0x61);
    Crc32.XorByteChanges(data[n - 1], 0xD8);
  }
}
