/** Serialize and Deserialize on byte buffers (pkg/bloom/counting.go). */
module FilterBuffers {
  import opened Bytes
  import opened HashIndices
  import opened CountingFilter
  import opened FilterCodec

  datatype LoadError = InvalidData | ChecksumMismatch

  function ErrorOf(d: Decoded): Option<LoadError> {
    match d
    case Ok(_) => None
    case ErrInvalidData => Some(InvalidData)
    case ErrChecksumMismatch => Some(ChecksumMismatch)
  }

  /** binary.BigEndian.PutUint32(data[at:at+4], x) */
  method PutAt(data: array<byte>, at: nat, x: u32)
    requires at + 4 <= data.Length
    modifies data
    ensures data[..] == old(data[..at]) + PutUint32(x) + old(data[at + 4..])
  {
    hide PutUint32;
    var word := PutUint32(x);
    data[at], data[at + 1], data[at + 2], data[at + 3] := word[0], word[1], word[2], word[3];
  }

  /** copy(data[at:], src) */
  method CopyAt(data: array<byte>, at: nat, src: seq<byte>)
    requires at + |src| <= data.Length
    modifies data
    ensures data[..] == old(data[..at]) + src + old(data[at + |src|..])
  {
    for i := 0 to |src|
      invariant forall j | 0 <= j < data.Length :: data[j] == if at <= j < at + i then src[j - at] else old(data[j])
    {
      data[at + i] := src[i];
    }
  }

  method SerializeFilter(cbf: CountingBloomFilter) returns (data: array<byte>)
    requires cbf.Valid()
    ensures fresh(data) && data[..] == Serialize(cbf.Value())
  {
    hide PutUint32, Checksum;
    var dataLen := 8 + cbf.counters.Length;
    data := new byte[dataLen + 4];
    PutAt(data, 0, cbf.m % 0x1_0000_0000);
    PutAt(data, 4, cbf.k % 0x1_0000_0000);
    CopyAt(data, 8, cbf.counters[..]);
    assert data[..dataLen] == Body(cbf.Value());
    var checksum := Checksum(data[..dataLen]);
    PutAt(data, dataLen, checksum);
  }

  method DeserializeFilter(data: seq<byte>, hash: Hash32) returns (cbf: CountingBloomFilter?, err: Option<LoadError>)
    ensures err == ErrorOf(Deserialize(data))
    ensures cbf == null <==> err != None
    ensures cbf != null ==>
              && fresh(cbf) && fresh(cbf.counters) && cbf.Valid() && cbf.hash == hash
              && Deserialize(data) == Ok(cbf.Value())
  {
    hide Checksum, Uint32;
    cbf := null;
    if |data| < 12 {
      return null, Some(InvalidData);
    }
    var m: int := Uint32(data[0..4]);
    var k: int := Uint32(data[4..8]);
    if m > MAX_FILTER_SIZE {
      return null, Some(InvalidData);
    }
    if k < 1 || k > MAX_HASH_FUNCTIONS {
      return null, Some(InvalidData);
    }
    var expectedLen := 8 + m + 4;
    if |data| != expectedLen {
      return null, Some(InvalidData);
    }
    var storedChecksum := Uint32(data[expectedLen - 4..expectedLen]);
    var calculatedChecksum := Checksum(data[..expectedLen - 4]);
    if storedChecksum != calculatedChecksum {
      return null, Some(ChecksumMismatch);
    }
    cbf := new CountingBloomFilter(m, k, hash);
    CopyAt(cbf.counters, 0, data[8..8 + m]);
    assert cbf.counters[..] == data[8..8 + m];
    err := None;
  }
}
