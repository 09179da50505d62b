/** Bytes, machine words and the big-endian 32-bit encoding of `encoding/binary`; also Option and suffixes. */
module Bytes {

  type byte = x: int | 0 <= x < 256

  type u32 = x: int | 0 <= x < 0x1_0000_0000

  datatype Option<+T> = None | Some(value: T)

  ghost predicate Suffix<T>(s: seq<T>, t: seq<T>) { |s| <= |t| && t[|t| - |s|..] == s }

  /** binary.BigEndian.PutUint32 */
  function PutUint32(x: u32): (r: seq<byte>)
    ensures |r| == 4
  {
    var x1: int := x / 256; var x2: int := x1 / 256; var x3: int := x2 / 256;
    [x3, x2 % 256, x1 % 256, x % 256]
  }

  /** binary.BigEndian.Uint32 */
  function Uint32(s: seq<byte>): u32
    requires |s| >= 4
  {
    var b0: int, b1: int, b2: int, b3: int := s[0], s[1], s[2], s[3];
    256 * (256 * (256 * b0 + b1) + b2) + b3
  }

  lemma PutThenGet(x: u32)
    ensures Uint32(PutUint32(x)) == x
  {}

  /** The number four bytes denote, the most significant first. */
  function Number(b0: int, b1: int, b2: int, b3: int): int {
    0x100_0000 * b0 + 0x1_0000 * b1 + 0x100 * b2 + b3
  }

  lemma BigEndian(s: seq<byte>)
    requires |s| >= 4
    ensures Uint32(s) == Number(s[0], s[1], s[2], s[3])
  {}

  lemma GetThenPut(s: seq<byte>)
    requires |s| == 4
    ensures PutUint32(Uint32(s)) == s
  {
    var b0: int, b1: int, b2: int, b3: int := s[0], s[1], s[2], s[3];
    var x2 := 256 * b0 + b1;
    var x1 := 256 * x2 + b2;
    var x := 256 * x1 + b3;
    assert x / 256 == x1 && x1 / 256 == x2 && x2 / 256 == b0;
  }
}
