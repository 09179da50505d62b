/**
 * The CRC-32 of section 8 of RFC 1952 (hash/crc32 with the IEEE table), and what it detects.
 * The register is a bit vector; bytes enter and leave it bit by bit.
 */
module Crc32 {
  import opened Bytes
  import opened Burst

  const POLY: bv32 := 0xEDB8_8320

  function Xor(x: bv32, y: bv32): bv32 { x ^ y }

  /** One bit of the reflected division: shift right and, for a set bit, add the polynomial. */
  function Shift(x: bv32): bv32 { (x >> 1) ^ (POLY & (0 - (x & 1))) }

  /** Eight bits: on a single byte, this is that byte's entry of the IEEE table. */
  function Shift8(x: bv32): bv32 { Shift(Shift(Shift(Shift(Shift(Shift(Shift(Shift(x)))))))) }

  function BitIf(b: bool, v: bv32): bv32 { if b then v else 0 }

  function Bits(p0: bool, p1: bool, p2: bool, p3: bool, p4: bool, p5: bool, p6: bool, p7: bool): bv32 {
    BitIf(p0, 1) | BitIf(p1, 2) | BitIf(p2, 4) | BitIf(p3, 8)
    | BitIf(p4, 16) | BitIf(p5, 32) | BitIf(p6, 64) | BitIf(p7, 128)
  }

  function BitsOf(b: byte): bv32 {
    var b1 := b / 2; var b2 := b1 / 2; var b3 := b2 / 2; var b4 := b3 / 2;
    var b5 := b4 / 2; var b6 := b5 / 2; var b7 := b6 / 2;
    Bits(b % 2 == 1, b1 % 2 == 1, b2 % 2 == 1, b3 % 2 == 1, b4 % 2 == 1, b5 % 2 == 1, b6 % 2 == 1, b7 % 2 == 1)
  }

  /** The number with last binary digit p and remaining digits v. */
  function Digit(p: bool, v: nat): nat { 2 * v + if p then 1 else 0 }

  function Value(p0: bool, p1: bool, p2: bool, p3: bool, p4: bool, p5: bool, p6: bool, p7: bool): byte {
    Digit(p0, Digit(p1, Digit(p2, Digit(p3, Digit(p4, Digit(p5, Digit(p6, Digit(p7, 0))))))))
  }

  /** The low eight bits. */
  function ByteOf(x: bv32): byte {
    Value(x & 1 != 0, x & 2 != 0, x & 4 != 0, x & 8 != 0, x & 16 != 0, x & 32 != 0, x & 64 != 0, x & 128 != 0)
  }

  /** The table-driven update of one byte. */
  function Update(crc: bv32, b: byte): bv32 {
    Xor(Shift8(Xor(crc, BitsOf(b)) & 0xFF), crc >> 8)
  }

  function Fold(crc: bv32, data: seq<byte>): bv32
    decreases |data|
  {
    if data == [] then crc else Fold(Update(crc, data[0]), data[1..])
  }

  const ONES: bv32 := 0xFFFF_FFFF

  function Checksum(data: seq<byte>): bv32 {
    Xor(Fold(ONES, data), ONES)
  }

  /** binary.BigEndian.PutUint32 of a register. */
  function PutChecksum(x: bv32): seq<byte> {
    [ByteOf(x >> 24), ByteOf(x >> 16), ByteOf(x >> 8), ByteOf(x)]
  }

  // ---- bytes and bits ----

  lemma BitsLow(p0: bool, p1: bool, p2: bool, p3: bool, p4: bool, p5: bool, p6: bool, p7: bool)
    ensures Bits(p0, p1, p2, p3, p4, p5, p6, p7) <= 0xFF
  {}

  lemma BitsAt(p0: bool, p1: bool, p2: bool, p3: bool, p4: bool, p5: bool, p6: bool, p7: bool)
    ensures var x := Bits(p0, p1, p2, p3, p4, p5, p6, p7);
            && (x & 1 != 0) == p0 && (x & 2 != 0) == p1 && (x & 4 != 0) == p2 && (x & 8 != 0) == p3
            && (x & 16 != 0) == p4 && (x & 32 != 0) == p5 && (x & 64 != 0) == p6 && (x & 128 != 0) == p7
  {}

  lemma BitsOfLow(b: byte)
    ensures BitsOf(b) <= 0xFF
  {
    var b1 := b / 2; var b2 := b1 / 2; var b3 := b2 / 2; var b4 := b3 / 2;
    var b5 := b4 / 2; var b6 := b5 / 2; var b7 := b6 / 2;
    BitsLow(b % 2 == 1, b1 % 2 == 1, b2 % 2 == 1, b3 % 2 == 1, b4 % 2 == 1, b5 % 2 == 1, b6 % 2 == 1, b7 % 2 == 1);
  }

  lemma Digits(b: byte)
    ensures var b1 := b / 2; var b2 := b1 / 2; var b3 := b2 / 2; var b4 := b3 / 2;
            var b5 := b4 / 2; var b6 := b5 / 2; var b7 := b6 / 2;
            Value(b % 2 == 1, b1 % 2 == 1, b2 % 2 == 1, b3 % 2 == 1, b4 % 2 == 1, b5 % 2 == 1, b6 % 2 == 1, b7 % 2 == 1) == b
  {
    var b1 := b / 2; var b2 := b1 / 2; var b3 := b2 / 2; var b4 := b3 / 2;
    var b5 := b4 / 2; var b6 := b5 / 2; var b7 := b6 / 2;
    assert b7 / 2 == 0;
    LastDigit(b); LastDigit(b1); LastDigit(b2); LastDigit(b3);
    LastDigit(b4); LastDigit(b5); LastDigit(b6); LastDigit(b7);
  }

  lemma LastDigit(v: nat)
    ensures Digit(v % 2 == 1, v / 2) == v
  {}

  lemma DigitParts(p: bool, v: nat)
    ensures Digit(p, v) / 2 == v && (Digit(p, v) % 2 == 1) == p
  {}


  lemma ByteOfBitsOf(b: byte)
    ensures ByteOf(BitsOf(b)) == b
  {
    var b1 := b / 2; var b2 := b1 / 2; var b3 := b2 / 2; var b4 := b3 / 2;
    var b5 := b4 / 2; var b6 := b5 / 2; var b7 := b6 / 2;
    BitsAt(b % 2 == 1, b1 % 2 == 1, b2 % 2 == 1, b3 % 2 == 1, b4 % 2 == 1, b5 % 2 == 1, b6 % 2 == 1, b7 % 2 == 1);
    Digits(b);
  }

  lemma ValueDigits(p0: bool, p1: bool, p2: bool, p3: bool, p4: bool, p5: bool, p6: bool, p7: bool)
    ensures var b: int := Value(p0, p1, p2, p3, p4, p5, p6, p7);
            var b1 := b / 2; var b2 := b1 / 2; var b3 := b2 / 2; var b4 := b3 / 2;
            var b5 := b4 / 2; var b6 := b5 / 2; var b7 := b6 / 2;
            && (b % 2 == 1) == p0 && (b1 % 2 == 1) == p1 && (b2 % 2 == 1) == p2 && (b3 % 2 == 1) == p3
            && (b4 % 2 == 1) == p4 && (b5 % 2 == 1) == p5 && (b6 % 2 == 1) == p6 && (b7 % 2 == 1) == p7
  {
    var v7 := Digit(p7, 0); var v6 := Digit(p6, v7); var v5 := Digit(p5, v6); var v4 := Digit(p4, v5);
    var v3 := Digit(p3, v4); var v2 := Digit(p2, v3); var v1 := Digit(p1, v2);
    DigitParts(p0, v1); DigitParts(p1, v2); DigitParts(p2, v3); DigitParts(p3, v4);
    DigitParts(p4, v5); DigitParts(p5, v6); DigitParts(p6, v7); DigitParts(p7, 0);
  }

  lemma BitsOfByteOf(x: bv32)
    ensures BitsOf(ByteOf(x)) == x & 0xFF
  {
    ValueDigits(x & 1 != 0, x & 2 != 0, x & 4 != 0, x & 8 != 0, x & 16 != 0, x & 32 != 0, x & 64 != 0, x & 128 != 0);
    Rebuild(x);
  }

  lemma Rebuild(x: bv32)
    ensures Bits(x & 1 != 0, x & 2 != 0, x & 4 != 0, x & 8 != 0, x & 16 != 0, x & 32 != 0, x & 64 != 0, x & 128 != 0)
         == x & 0xFF
  {}

  // ---- the division is linear and reversible ----

  lemma XorCommutes(x: bv32, y: bv32)
    ensures Xor(x, y) == Xor(y, x)
  {}

  lemma XorAssociates(x: bv32, y: bv32, z: bv32)
    ensures Xor(Xor(x, y), z) == Xor(x, Xor(y, z))
  {}

  lemma XorCancels(x: bv32)
    ensures Xor(x, x) == 0 && Xor(x, 0) == x
  {}

  lemma XorGroup()
    ensures Group(Xor, 0)
  {
    forall x: bv32, y: bv32 ensures Xor(x, y) == Xor(y, x) { XorCommutes(x, y); }
    forall x: bv32, y: bv32, z: bv32 ensures Xor(Xor(x, y), z) == Xor(x, Xor(y, z)) { XorAssociates(x, y, z); }
    forall x: bv32 ensures Xor(x, x) == 0 && Xor(x, 0) == x { XorCancels(x); }
  }

  function Half(x: bv32): bv32 { x >> 1 }

  function Carry(x: bv32): bv32 { POLY & (0 - (x & 1)) }

  function HalfCarry(x: bv32): bv32 { Xor(Half(x), Carry(x)) }

  lemma ShiftParts(x: bv32)
    ensures Shift(x) == HalfCarry(x)
  {}

  function Shift2(x: bv32): bv32 { Shift(Shift(x)) }

  function Shift4(x: bv32): bv32 { Shift2(Shift2(x)) }

  lemma HalfXor(x: bv32, y: bv32)
    ensures Half(Xor(x, y)) == Xor(Half(x), Half(y))
  {}

  lemma CarryXor(x: bv32, y: bv32)
    ensures Carry(Xor(x, y)) == Xor(Carry(x), Carry(y))
  {}

  lemma ShiftLinear()
    ensures Linear(Xor, Shift)
  {
    XorGroup();
    forall x: bv32, y: bv32 ensures Half(Xor(x, y)) == Xor(Half(x), Half(y)) { HalfXor(x, y); }
    forall x: bv32, y: bv32 ensures Carry(Xor(x, y)) == Xor(Carry(x), Carry(y)) { CarryXor(x, y); }
    SumLinear(Xor, 0, Half, Carry, HalfCarry);
    forall x: bv32 ensures Shift(x) == HalfCarry(x) { ShiftParts(x); }
    SameLinear(Xor, HalfCarry, Shift);
  }

  lemma Shift8Linear()
    ensures Linear(Xor, Shift8)
  {
    ShiftLinear();
    DoubleLinear(Xor, Shift, Shift2);
    DoubleLinear(Xor, Shift2, Shift4);
    DoubleLinear(Xor, Shift4, Shift8);
  }

  function Double(x: bv32): bv32 { x << 1 }

  predicate Top(x: bv32) { x & 0x8000_0000 != 0 }

  function BorrowIf(p: bool): bv32 { if p then 0xDB71_0641 else 0 }

  function Borrow(x: bv32): bv32 { BorrowIf(Top(x)) }

  /** Undoes one bit of the division. */
  function Unshift(x: bv32): bv32 { Xor(Double(x), Borrow(x)) }

  function Unshift2(x: bv32): bv32 { Unshift(Unshift(x)) }

  function Unshift4(x: bv32): bv32 { Unshift2(Unshift2(x)) }

  function Unshift8(x: bv32): bv32 { Unshift4(Unshift4(x)) }

  lemma UnshiftShift(x: bv32)
    ensures Unshift(Shift(x)) == x
  {}

  lemma Unshift8Shift8()
    ensures Inverse(Shift8, Unshift8)
  {
    forall x: bv32 ensures Unshift(Shift(x)) == x { UnshiftShift(x); }
    DoubleInverse(Shift, Unshift, Shift2, Unshift2);
    DoubleInverse(Shift2, Unshift2, Shift4, Unshift4);
    DoubleInverse(Shift4, Unshift4, Shift8, Unshift8);
  }

  lemma DoubleXor(x: bv32, y: bv32)
    ensures Double(Xor(x, y)) == Xor(Double(x), Double(y))
  {}

  lemma TopXor(x: bv32, y: bv32)
    ensures Top(Xor(x, y)) == (Top(x) != Top(y))
  {}

  lemma BorrowIfXor(p: bool, q: bool)
    ensures BorrowIf(p != q) == Xor(BorrowIf(p), BorrowIf(q))
  {}

  lemma BorrowXor(x: bv32, y: bv32)
    ensures Borrow(Xor(x, y)) == Xor(Borrow(x), Borrow(y))
  {
    TopXor(x, y);
    BorrowIfXor(Top(x), Top(y));
  }

  lemma UnshiftLinear()
    ensures Linear(Xor, Unshift)
  {
    XorGroup();
    forall x: bv32, y: bv32 ensures Double(Xor(x, y)) == Xor(Double(x), Double(y)) { DoubleXor(x, y); }
    forall x: bv32, y: bv32 ensures Borrow(Xor(x, y)) == Xor(Borrow(x), Borrow(y)) { BorrowXor(x, y); }
    SumLinear(Xor, 0, Double, Borrow, Unshift);
  }

  lemma Unshift8Linear()
    ensures Linear(Xor, Unshift8)
  {
    UnshiftLinear();
    DoubleLinear(Xor, Unshift, Unshift2);
    DoubleLinear(Xor, Unshift2, Unshift4);
    DoubleLinear(Xor, Unshift4, Unshift8);
  }

  // ---- the register ----

  function Up(x: bv32): bv32 { x << 8 }

  /** x is zero above its lowest n bytes. */
  predicate Fits(x: bv32, n: nat) {
    match n
    case 0 => x == 0
    case 1 => x <= 0xFF
    case 2 => x <= 0xFFFF
    case 3 => x <= 0xFF_FFFF
    case _ => true
  }

  const REGISTER: Register<bv32> := Register(0, Xor, Shift8, Up, BitsOf, Fits)

  lemma FitsThree(x: bv32, n: nat)
    requires n <= 3 && Fits(x, n)
    ensures x <= 0xFF_FFFF
  {
    match n
    case 0 => case 1 => case 2 => case 3 =>
  }

  lemma Prepend0(b: bv32)
    ensures Xor(b, Up(0)) == b
  {}

  lemma Prepend1(b: bv32, w: bv32)
    requires b <= 0xFF && w <= 0xFF
    ensures Xor(b, Up(w)) <= 0xFFFF
  {}

  lemma Prepend2(b: bv32, w: bv32)
    requires b <= 0xFF && w <= 0xFFFF
    ensures Xor(b, Up(w)) <= 0xFF_FFFF
  {}

  lemma PrependFits(b: bv32, w: bv32, n: nat)
    requires b <= 0xFF && n <= 3 && Fits(w, n)
    ensures Fits(Xor(b, Up(w)), n + 1)
  {
    match n
    case 0 => Prepend0(b);
    case 1 => Prepend1(b, w);
    case 2 => Prepend2(b, w);
    case 3 =>
  }

  lemma PrependLow(b: bv32, w: bv32)
    requires b <= 0xFF
    ensures Xor(b, Up(w)) & 0xFF == b
  {}

  lemma Shift8Up(w: bv32)
    requires w <= 0xFF_FFFF
    ensures Shift8(Up(w)) == w
  {}

  lemma Shift8Injective(x: bv32, y: bv32)
    requires Shift8(x) == Shift8(y)
    ensures x == y
  {
    Unshift8Shift8();
    assert Unshift8(Shift8(x)) == x && Unshift8(Shift8(y)) == y;
  }

  lemma PrependInjective(a: byte, b: byte, v: bv32, w: bv32)
    requires Xor(BitsOf(a), Up(v)) == Xor(BitsOf(b), Up(w))
    ensures a == b
  {
    BitsOfLow(a);
    BitsOfLow(b);
    PrependLow(BitsOf(a), v);
    PrependLow(BitsOf(b), w);
    ByteOfBitsOf(a);
    ByteOfBitsOf(b);
  }

  lemma UpLaws()
    ensures Shifts(Xor, Shift8, Up, BitsOf, Fits)
  {
    forall b: byte, w: bv32, n: nat | n <= 3 && Fits(w, n) ensures Fits(Xor(BitsOf(b), Up(w)), n + 1) {
      BitsOfLow(b);
      PrependFits(BitsOf(b), w, n);
    }
    forall w: bv32, n: nat | n <= 3 && Fits(w, n) ensures Shift8(Up(w)) == w {
      FitsThree(w, n);
      Shift8Up(w);
    }
  }

  lemma XorFits1(x: bv32, y: bv32)
    requires x <= 0xFF && y <= 0xFF
    ensures Xor(x, y) <= 0xFF
  {}

  lemma XorFits2(x: bv32, y: bv32)
    requires x <= 0xFFFF && y <= 0xFFFF
    ensures Xor(x, y) <= 0xFFFF
  {}

  lemma XorFits3(x: bv32, y: bv32)
    requires x <= 0xFF_FFFF && y <= 0xFF_FFFF
    ensures Xor(x, y) <= 0xFF_FFFF
  {}

  lemma XorFits(x: bv32, y: bv32, n: nat)
    requires n <= 3 && Fits(x, n) && Fits(y, n)
    ensures Fits(Xor(x, y), n)
  {
    match n
    case 0 => XorZeros();
    case 1 => XorFits1(x, y);
    case 2 => XorFits2(x, y);
    case 3 => XorFits3(x, y);
  }

  lemma FitsLaw()
    ensures FitsSum(Xor, Fits)
  {
    forall x: bv32, y: bv32, n: nat | n <= 3 && Fits(x, n) && Fits(y, n) ensures Fits(Xor(x, y), n) {
      XorFits(x, y, n);
    }
  }

  lemma InjectiveLaws()
    ensures Injective(Shift8) && LowByte(Xor, Up, BitsOf)
  {
    forall x: bv32, y: bv32 | Shift8(x) == Shift8(y) ensures x == y { Shift8Injective(x, y); }
    forall a: byte, b: byte, v: bv32, w: bv32 | Xor(BitsOf(a), Up(v)) == Xor(BitsOf(b), Up(w)) ensures a == b {
      PrependInjective(a, b, v, w);
    }
  }

  lemma RegisterLawful()
    ensures REGISTER.Lawful()
  {
    XorGroup();
    Shift8Linear();
    UpLaws();
    InjectiveLaws();
    FitsLaw();
  }

  lemma SplitLow(x: bv32)
    ensures x == Xor(x & 0xFF, Up(x >> 8)) && x >> 8 <= 0xFF_FFFF
  {}

  lemma HighUnchanged(x: bv32, b: bv32)
    requires b <= 0xFF
    ensures Xor(x, b) >> 8 == x >> 8
  {}

  lemma StepSplit(x: bv32, lo: bv32, hi: bv32)
    requires x == Xor(lo, Up(hi)) && hi <= 0xFF_FFFF
    ensures Shift8(x) == Xor(Shift8(lo), hi)
  {
    Shift8Linear();
    Shift8Up(hi);
    assert Shift8(Xor(lo, Up(hi))) == Xor(Shift8(lo), Shift8(Up(hi)));
  }

  lemma TableStep(crc: bv32, b: bv32, x: bv32)
    requires x == Xor(crc, b) && b <= 0xFF
    ensures Xor(Shift8(x & 0xFF), crc >> 8) == Shift8(x)
  {
    HighUnchanged(crc, b);
    SplitLow(x);
    StepSplit(x, x & 0xFF, x >> 8);
  }

  /** The table-driven update is one step of the register. */
  lemma UpdateIsStep(crc: bv32, b: byte)
    ensures Update(crc, b) == Shift8(Xor(crc, BitsOf(b)))
  {
    BitsOfLow(b);
    TableStep(crc, BitsOf(b), Xor(crc, BitsOf(b)));
  }

  lemma {:induction false} FoldIsFeed(crc: bv32, data: seq<byte>)
    ensures Fold(crc, data) == REGISTER.Feed(crc, data)
    decreases |data|
  {
    if data != [] {
      UpdateIsStep(crc, data[0]);
      FoldIsFeed(Update(crc, data[0]), data[1..]);
    }
  }

  lemma ChecksumIsSum(data: seq<byte>)
    ensures Checksum(data) == REGISTER.Sum(ONES, ONES, data)
  {
    FoldIsFeed(ONES, data);
  }

  // ---- what the checksum detects ----

  /** No change confined to at most four consecutive bytes keeps the checksum. */
  lemma ChecksumBurst(pre: seq<byte>, u: seq<byte>, v: seq<byte>, rest: seq<byte>)
    requires |u| == |v| <= 4 && Checksum(pre + u + rest) == Checksum(pre + v + rest)
    ensures u == v
  {
    RegisterLawful();
    ChecksumIsSum(pre + u + rest);
    ChecksumIsSum(pre + v + rest);
    REGISTER.SumBurst(ONES, ONES, pre, u, v, rest);
  }

  /** Changing the last bytes changes the checksum by the division of their difference. */
  lemma ChecksumTail(pre: seq<byte>, u: seq<byte>, v: seq<byte>)
    requires |u| == |v| <= 4
    ensures Xor(Checksum(pre + u), Checksum(pre + v)) == REGISTER.Steps(Xor(REGISTER.Word(u), REGISTER.Word(v)), |u|)
  {
    RegisterLawful();
    ChecksumIsSum(pre + u);
    ChecksumIsSum(pre + v);
    REGISTER.SumTail(ONES, ONES, pre, u, v);
  }

  lemma Tail1(d: bv32)
    requires d <= 0xFF && Shift8(d) & 0xFF == 0
    ensures d == 0
  {}

  lemma Tail2(d: bv32)
    requires d <= 0xFFFF && Shift8(Shift8(d)) & 0xFFFF == 0
    ensures d == 0 || d == 0xD861
  {}

  lemma Tail2Pattern()
    ensures Shift8(Shift8(0xD861)) == 0xF4EE_0000
  {}

  function Unshift24(x: bv32): bv32 { Unshift8(Unshift8(Unshift8(x))) }

  lemma Unshift24Linear()
    ensures Linear(Xor, Unshift24)
  {
    Unshift8Linear();
    TripleLinear(Xor, Unshift8, Unshift24);
  }

  lemma Units0()
    ensures Unshift24(0x8000_0000) == 0x1F81_B6E1 && Unshift24(0x4000_0000) == 0xE278_5850
    ensures Unshift24(0x2000_0000) == 0x713C_2C28
  {}

  lemma Units1()
    ensures Unshift24(0x1000_0000) == 0x389E_1614 && Unshift24(0x0800_0000) == 0x1C4F_0B0A
    ensures Unshift24(0x0400_0000) == 0x0E27_8585
  {}

  lemma Units2()
    ensures Unshift24(0x0200_0000) == 0xEAAB_41E2 && Unshift24(0x0100_0000) == 0x7555_A0F1
    ensures Unshift24(0) == 0
  {}

  function PickIf(p: bool, unit: bv32): bv32 { if p then unit else 0 }

  /** The bits of the highest byte, one by one. */
  lemma HighBits(w: bv32)
    requires w & 0xFF_FFFF == 0
    ensures w == Sum8(Xor,
                      PickIf(w & 0x8000_0000 != 0, 0x8000_0000), PickIf(w & 0x4000_0000 != 0, 0x4000_0000),
                      PickIf(w & 0x2000_0000 != 0, 0x2000_0000), PickIf(w & 0x1000_0000 != 0, 0x1000_0000),
                      PickIf(w & 0x0800_0000 != 0, 0x0800_0000), PickIf(w & 0x0400_0000 != 0, 0x0400_0000),
                      PickIf(w & 0x0200_0000 != 0, 0x0200_0000), PickIf(w & 0x0100_0000 != 0, 0x0100_0000))
  {}

  lemma Independent(p7: bool, p6: bool, p5: bool, p4: bool, p3: bool, p2: bool, p1: bool, p0: bool)
    requires Sum8(Xor, PickIf(p7, 0x1F81_B6E1), PickIf(p6, 0xE278_5850), PickIf(p5, 0x713C_2C28), PickIf(p4, 0x389E_1614),
                  PickIf(p3, 0x1C4F_0B0A), PickIf(p2, 0x0E27_8585), PickIf(p1, 0xEAAB_41E2), PickIf(p0, 0x7555_A0F1))
             <= 0xFF_FFFF
    ensures !p7 && !p6 && !p5 && !p4 && !p3 && !p2 && !p1 && !p0
  {}

  lemma PickUnit(p: bool, unit: bv32, image: bv32)
    requires Unshift24(0) == 0 && Unshift24(unit) == image
    ensures Unshift24(PickIf(p, unit)) == PickIf(p, image)
  {}

  lemma HighByteImage(p7: bool, p6: bool, p5: bool, p4: bool, p3: bool, p2: bool, p1: bool, p0: bool)
    ensures Unshift24(Sum8(Xor, PickIf(p7, 0x8000_0000), PickIf(p6, 0x4000_0000), PickIf(p5, 0x2000_0000), PickIf(p4, 0x1000_0000),
                           PickIf(p3, 0x0800_0000), PickIf(p2, 0x0400_0000), PickIf(p1, 0x0200_0000), PickIf(p0, 0x0100_0000)))
         == Sum8(Xor, PickIf(p7, 0x1F81_B6E1), PickIf(p6, 0xE278_5850), PickIf(p5, 0x713C_2C28), PickIf(p4, 0x389E_1614),
                 PickIf(p3, 0x1C4F_0B0A), PickIf(p2, 0x0E27_8585), PickIf(p1, 0xEAAB_41E2), PickIf(p0, 0x7555_A0F1))
  {
    Unshift24Linear();
    Picks0(p7, p6, p5);
    Picks1(p4, p3, p2);
    Picks2(p1, p0);
    Linear8(Xor, Unshift24,
            PickIf(p7, 0x8000_0000), PickIf(p6, 0x4000_0000), PickIf(p5, 0x2000_0000), PickIf(p4, 0x1000_0000),
            PickIf(p3, 0x0800_0000), PickIf(p2, 0x0400_0000), PickIf(p1, 0x0200_0000), PickIf(p0, 0x0100_0000),
            PickIf(p7, 0x1F81_B6E1), PickIf(p6, 0xE278_5850), PickIf(p5, 0x713C_2C28), PickIf(p4, 0x389E_1614),
            PickIf(p3, 0x1C4F_0B0A), PickIf(p2, 0x0E27_8585), PickIf(p1, 0xEAAB_41E2), PickIf(p0, 0x7555_A0F1));
  }

  lemma Picks0(p: bool, q: bool, r: bool)
    ensures Unshift24(PickIf(p, 0x8000_0000)) == PickIf(p, 0x1F81_B6E1)
    ensures Unshift24(PickIf(q, 0x4000_0000)) == PickIf(q, 0xE278_5850)
    ensures Unshift24(PickIf(r, 0x2000_0000)) == PickIf(r, 0x713C_2C28)
  {
    Units0(); Units2();
    PickUnit(p, 0x8000_0000, 0x1F81_B6E1); PickUnit(q, 0x4000_0000, 0xE278_5850); PickUnit(r, 0x2000_0000, 0x713C_2C28);
  }

  lemma Picks1(p: bool, q: bool, r: bool)
    ensures Unshift24(PickIf(p, 0x1000_0000)) == PickIf(p, 0x389E_1614)
    ensures Unshift24(PickIf(q, 0x0800_0000)) == PickIf(q, 0x1C4F_0B0A)
    ensures Unshift24(PickIf(r, 0x0400_0000)) == PickIf(r, 0x0E27_8585)
  {
    Units1(); Units2();
    PickUnit(p, 0x1000_0000, 0x389E_1614); PickUnit(q, 0x0800_0000, 0x1C4F_0B0A); PickUnit(r, 0x0400_0000, 0x0E27_8585);
  }

  lemma Picks2(p: bool, q: bool)
    ensures Unshift24(PickIf(p, 0x0200_0000)) == PickIf(p, 0xEAAB_41E2)
    ensures Unshift24(PickIf(q, 0x0100_0000)) == PickIf(q, 0x7555_A0F1)
  {
    Units2();
    PickUnit(p, 0x0200_0000, 0xEAAB_41E2); PickUnit(q, 0x0100_0000, 0x7555_A0F1);
  }

  lemma NoHighBits(w: bv32, p7: bool, p6: bool, p5: bool, p4: bool, p3: bool, p2: bool, p1: bool, p0: bool)
    requires w == Sum8(Xor, PickIf(p7, 0x8000_0000), PickIf(p6, 0x4000_0000), PickIf(p5, 0x2000_0000), PickIf(p4, 0x1000_0000),
                       PickIf(p3, 0x0800_0000), PickIf(p2, 0x0400_0000), PickIf(p1, 0x0200_0000), PickIf(p0, 0x0100_0000))
    requires Unshift24(w) <= 0xFF_FFFF
    ensures !p7 && !p6 && !p5 && !p4 && !p3 && !p2 && !p1 && !p0
  {
    HighByteImage(p7, p6, p5, p4, p3, p2, p1, p0);
    Independent(p7, p6, p5, p4, p3, p2, p1, p0);
  }

  lemma HighByteOnly(w: bv32)
    requires w & 0xFF_FFFF == 0 && Unshift24(w) <= 0xFF_FFFF
    ensures w == 0
  {
    HighBits(w);
    NoHighBits(w, w & 0x8000_0000 != 0, w & 0x4000_0000 != 0, w & 0x2000_0000 != 0, w & 0x1000_0000 != 0,
               w & 0x0800_0000 != 0, w & 0x0400_0000 != 0, w & 0x0200_0000 != 0, w & 0x0100_0000 != 0);
    XorZeros();
  }

  lemma XorZeros()
    ensures Xor(0, 0) == 0
  {}

  lemma Tail3(d: bv32)
    requires d <= 0xFF_FFFF && Shift8(Shift8(Shift8(d))) & 0xFF_FFFF == 0
    ensures d == 0
  {
    var w := Shift8(Shift8(Shift8(d)));
    Unshift8Shift8();
    assert Unshift24(w) == d;
    HighByteOnly(w);
    Units2();
  }

  // ---- a change that straddles the end of the data and the stored checksum ----

  function XorByte(b: byte, mask: bv32): byte { ByteOf(Xor(BitsOf(b), mask)) }

  lemma SameByte(x: bv32, y: bv32)
    requires ByteOf(x) == ByteOf(y)
    ensures x & 0xFF == y & 0xFF
  {
    BitsOfByteOf(x);
    BitsOfByteOf(y);
  }

  lemma MaskLow(x: bv32)
    requires x <= 0xFF
    ensures x & 0xFF == x
  {}

  lemma XorTwice(x: bv32, y: bv32)
    ensures Xor(x, Xor(x, y)) == y
  {}

  lemma XorBits(x: bv32, y: bv32, mask: bv32)
    ensures Xor(x, y) == mask <==> y == Xor(x, mask)
  {
    XorTwice(x, y);
    XorTwice(x, mask);
  }

  lemma ByteOfIff(b: byte, x: bv32)
    requires x <= 0xFF
    ensures b == ByteOf(x) <==> BitsOf(b) == x
  {
    ByteOfBitsOf(b);
    BitsOfByteOf(x);
    MaskLow(x);
  }

  /** c is b xor mask, as bytes and as bits. */
  lemma XorByteIff(b: byte, c: byte, mask: bv32)
    requires mask <= 0xFF
    ensures c == XorByte(b, mask) <==> Xor(BitsOf(b), BitsOf(c)) == mask
  {
    BitsOfLow(b);
    XorFits1(BitsOf(b), mask);
    ByteOfIff(c, Xor(BitsOf(b), mask));
    XorBits(BitsOf(b), BitsOf(c), mask);
  }

  lemma Low1(x: bv32, y: bv32)
    requires x & 0xFF == y & 0xFF
    ensures Xor(x, y) & 0xFF == 0
  {}

  lemma Low2(x: bv32, y: bv32)
    requires x & 0xFF == y & 0xFF && (x >> 8) & 0xFF == (y >> 8) & 0xFF
    ensures Xor(x, y) & 0xFFFF == 0
  {}

  lemma Low3(x: bv32, y: bv32)
    requires x & 0xFF == y & 0xFF && (x >> 8) & 0xFF == (y >> 8) & 0xFF && (x >> 16) & 0xFF == (y >> 16) & 0xFF
    ensures Xor(x, y) & 0xFF_FFFF == 0
  {}

  lemma WordDifference(u: seq<byte>, v: seq<byte>)
    requires |u| == |v| <= 3 && u != v
    ensures Fits(Xor(REGISTER.Word(u), REGISTER.Word(v)), |u|)
    ensures Xor(REGISTER.Word(u), REGISTER.Word(v)) != 0
  {
    RegisterLawful();
    REGISTER.WordDifference(u, v);
  }

  /**
   * If the last j data bytes change and the last j bytes of the big-endian checksum do not, then
   * j is two and the change is one particular pattern.
   */
  lemma Straddle(pre: seq<byte>, u: seq<byte>, v: seq<byte>)
    requires 1 <= |u| == |v| <= 3 && u != v
    requires PutChecksum(Checksum(pre + u))[4 - |u|..] == PutChecksum(Checksum(pre + v))[4 - |u|..]
    ensures |u| == 2 && Xor(REGISTER.Word(u), REGISTER.Word(v)) == 0xD861
  {
    var d := Xor(REGISTER.Word(u), REGISTER.Word(v));
    ChecksumTail(pre, u, v);
    WordDifference(u, v);
    TailBytes(d, Checksum(pre + u), Checksum(pre + v), |u|);
  }

  lemma TailBytes(d: bv32, x: bv32, y: bv32, j: nat)
    requires 1 <= j <= 3 && Fits(d, j) && d != 0 && PutChecksum(x)[4 - j..] == PutChecksum(y)[4 - j..]
    requires Xor(x, y) == REGISTER.Steps(d, j)
    ensures j == 2 && d == 0xD861
  {
    hide Xor, Shift8, ByteOf;
    REGISTER.FewSteps(d);
    PutChecksumTail(PutChecksum(x), PutChecksum(y), j);
    if j == 1 { TailBytes1(d, x, y); } else if j == 2 { TailBytes2(d, x, y); } else { TailBytes3(d, x, y); }
  }

  lemma PutChecksumTail(p: seq<byte>, q: seq<byte>, j: nat)
    requires |p| == |q| == 4 && 1 <= j <= 3 && p[4 - j..] == q[4 - j..]
    ensures p[3] == q[3] && (j >= 2 ==> p[2] == q[2]) && (j >= 3 ==> p[1] == q[1])
  {
    assert forall i | 4 - j <= i < 4 :: p[i] == p[4 - j..][i - (4 - j)] == q[i];
  }

  lemma TailBytes1(d: bv32, x: bv32, y: bv32)
    requires d <= 0xFF && Xor(x, y) == Shift8(d) && ByteOf(x) == ByteOf(y)
    ensures d == 0
  {
    SameByte(x, y);
    Low1(x, y);
    Tail1(d);
  }

  lemma TailBytes2(d: bv32, x: bv32, y: bv32)
    requires d <= 0xFFFF && Xor(x, y) == Shift8(Shift8(d))
    requires ByteOf(x) == ByteOf(y) && ByteOf(x >> 8) == ByteOf(y >> 8)
    ensures d == 0 || d == 0xD861
  {
    SameByte(x, y);
    SameByte(x >> 8, y >> 8);
    Low2(x, y);
    Tail2(d);
  }

  lemma TailBytes3(d: bv32, x: bv32, y: bv32)
    requires d <= 0xFF_FFFF && Xor(x, y) == Shift8(Shift8(Shift8(d)))
    requires ByteOf(x) == ByteOf(y) && ByteOf(x >> 8) == ByteOf(y >> 8) && ByteOf(x >> 16) == ByteOf(y >> 16)
    ensures d == 0
  {
    SameByte(x, y);
    SameByte(x >> 8, y >> 8);
    SameByte(x >> 16, y >> 16);
    Low3(x, y);
    Tail3(d);
  }

  lemma UpXor(y: bv32, y': bv32)
    ensures Up(Xor(y, y')) == Xor(Up(y), Up(y'))
  {}

  lemma PairBytes(s: bv32, t: bv32)
    requires s <= 0xFF && t <= 0xFF
    ensures Xor(s, Up(t)) == 0xD861 <==> s == 0x61 && t == 0xD8
  {}

  lemma XorPairs(a: bv32, b: bv32, c: bv32, d: bv32)
    ensures Xor(Xor(a, b), Xor(c, d)) == Xor(Xor(a, c), Xor(b, d))
  {
    XorGroup();
    Regroup(Xor, 0, a, b, c, d);
  }

  lemma PairBits(x: bv32, y: bv32, x': bv32, y': bv32)
    requires x <= 0xFF && y <= 0xFF && x' <= 0xFF && y' <= 0xFF
    ensures Xor(Xor(x, Up(y)), Xor(x', Up(y'))) == 0xD861 <==> Xor(x, x') == 0x61 && Xor(y, y') == 0xD8
  {
    XorPairs(x, Up(y), x', Up(y'));
    UpXor(y, y');
    XorFits1(x, x');
    XorFits1(y, y');
    PairBytes(Xor(x, x'), Xor(y, y'));
  }

  lemma PairWord(a: byte, b: byte)
    ensures REGISTER.Word([a, b]) == Xor(BitsOf(a), Up(BitsOf(b)))
  {
    assert [a, b][1..] == [b] && [b][1..] == [];
    assert REGISTER.Word([]) == 0;
    Prepend0(BitsOf(b));
    assert REGISTER.Word([b]) == BitsOf(b);
  }

  /** The pattern, byte by byte in the data. */
  lemma PairPattern(a: byte, b: byte, a': byte, b': byte)
    ensures Xor(REGISTER.Word([a, b]), REGISTER.Word([a', b'])) == 0xD861
            <==> a' == XorByte(a, 0x61) && b' == XorByte(b, 0xD8)
  {
    PairWord(a, b);
    PairWord(a', b');
    BitsOfLow(a); BitsOfLow(b); BitsOfLow(a'); BitsOfLow(b');
    PairBits(BitsOf(a), BitsOf(b), BitsOf(a'), BitsOf(b'));
    XorByteIff(a, a', 0x61);
    XorByteIff(b, b', 0xD8);
  }

  lemma Slice24(x: bv32, y: bv32)
    requires Xor(x, y) == 0xF4EE_0000
    ensures Xor((x >> 24) & 0xFF, (y >> 24) & 0xFF) == 0xF4
  {}

  lemma Slice16(x: bv32, y: bv32)
    requires Xor(x, y) == 0xF4EE_0000
    ensures Xor((x >> 16) & 0xFF, (y >> 16) & 0xFF) == 0xEE
  {}

  lemma Slice8(x: bv32, y: bv32)
    requires Xor(x, y) == 0xF4EE_0000
    ensures Xor((x >> 8) & 0xFF, (y >> 8) & 0xFF) == 0
  {}

  lemma Slice0(x: bv32, y: bv32)
    requires Xor(x, y) == 0xF4EE_0000
    ensures Xor(x & 0xFF, y & 0xFF) == 0
  {}

  lemma ByteDifference(x: bv32, y: bv32, mask: bv32)
    requires mask <= 0xFF && Xor(x & 0xFF, y & 0xFF) == mask
    ensures ByteOf(y) == XorByte(ByteOf(x), mask)
  {
    BitsOfByteOf(x);
    BitsOfByteOf(y);
    XorByteIff(ByteOf(x), ByteOf(y), mask);
  }

  lemma XorByteZero(b: byte)
    ensures XorByte(b, 0) == b
  {
    XorCancels(BitsOf(b));
    ByteOfBitsOf(b);
  }

  lemma HighBytes(x: bv32, y: bv32)
    requires Xor(x, y) == 0xF4EE_0000
    ensures ByteOf(y >> 24) == XorByte(ByteOf(x >> 24), 0xF4) && ByteOf(y >> 16) == XorByte(ByteOf(x >> 16), 0xEE)
  {
    Slice24(x, y);
    ByteDifference(x >> 24, y >> 24, 0xF4);
    Slice16(x, y);
    ByteDifference(x >> 16, y >> 16, 0xEE);
  }

  lemma LowBytes(x: bv32, y: bv32)
    requires Xor(x, y) == 0xF4EE_0000
    ensures ByteOf(y >> 8) == ByteOf(x >> 8) && ByteOf(y) == ByteOf(x)
  {
    Slice8(x, y);
    ByteDifference(x >> 8, y >> 8, 0);
    XorByteZero(ByteOf(x >> 8));
    Slice0(x, y);
    ByteDifference(x, y, 0);
    XorByteZero(ByteOf(x));
  }

  /** The pattern, byte by byte in the stored checksum. */
  lemma ChecksumPattern(x: bv32, y: bv32)
    requires Xor(x, y) == 0xF4EE_0000
    ensures var p := PutChecksum(x);
            PutChecksum(y) == [XorByte(p[0], 0xF4), XorByte(p[1], 0xEE), p[2], p[3]]
  {
    HighBytes(x, y);
    LowBytes(x, y);
  }

  /**
   * The two last data bytes and the two first checksum bytes: the checksum follows the data in
   * this way and in no other.
   */
  lemma PairFlip(pre: seq<byte>, a: byte, b: byte)
    ensures var p := PutChecksum(Checksum(pre + [a, b]));
            PutChecksum(Checksum(pre + [XorByte(a, 0x61), XorByte(b, 0xD8)]))
            == [XorByte(p[0], 0xF4), XorByte(p[1], 0xEE), p[2], p[3]]
  {
    var u, v := [a, b], [XorByte(a, 0x61), XorByte(b, 0xD8)];
    PairPattern(a, b, v[0], v[1]);
    ChecksumTail(pre, u, v);
    REGISTER.FewSteps(0xD861);
    Tail2Pattern();
    ChecksumPattern(Checksum(pre + u), Checksum(pre + v));
  }

  /** binary.BigEndian.Uint32, into a register. */
  function GetChecksum(s: seq<byte>): bv32
    requires |s| == 4
  {
    (BitsOf(s[0]) << 24) | (BitsOf(s[1]) << 16) | (BitsOf(s[2]) << 8) | BitsOf(s[3])
  }

  lemma FourBytes(x: bv32)
    ensures (((x >> 24) & 0xFF) << 24) | (((x >> 16) & 0xFF) << 16) | (((x >> 8) & 0xFF) << 8) | (x & 0xFF) == x
  {}

  lemma GetPutChecksum(x: bv32)
    ensures GetChecksum(PutChecksum(x)) == x
  {
    BitsOfByteOf(x);
    BitsOfByteOf(x >> 8);
    BitsOfByteOf(x >> 16);
    BitsOfByteOf(x >> 24);
    FourBytes(x);
  }

  lemma SmallBits(p0: bool, p1: bool, p2: bool, p3: bool, p4: bool, p5: bool)
    ensures Bits(p0, p1, p2, p3, p4, p5, false, false) <= 0x3F
  {}

  lemma SmallByte(b: byte)
    requires b < 64
    ensures BitsOf(b) <= 0x3F
  {
    var b1 := b / 2; var b2 := b1 / 2; var b3 := b2 / 2; var b4 := b3 / 2; var b5 := b4 / 2;
    assert b5 / 2 == 0;
    SmallBits(b % 2 == 1, b1 % 2 == 1, b2 % 2 == 1, b3 % 2 == 1, b4 % 2 == 1, b5 % 2 == 1);
  }

  lemma XorFits6(x: bv32, y: bv32)
    requires x <= 0x3F && y <= 0x3F
    ensures Xor(x, y) <= 0x3F
  {}

  /** The pattern takes a small byte out of the small range. */
  lemma XorByteLarge(b: byte)
    requires b < 64
    ensures XorByte(b, 0x61) >= 64
  {
    var c := XorByte(b, 0x61);
    XorByteIff(b, c, 0x61);
    SmallByte(b);
    if c < 64 {
      SmallByte(c);
      XorFits6(BitsOf(b), BitsOf(c));
    }
  }

  lemma XorByteChanges(b: byte, mask: bv32)
    requires mask == 0x61 || mask == 0xD8
    ensures XorByte(b, mask) != b
  {
    XorByteIff(b, b, mask);
    XorCancels(BitsOf(b));
  }

  // ---- check values ----

  lemma LetterBits()
    ensures BitsOf(0x61) == 0x61
  {}

  lemma LetterEntry()
    ensures Shift8(0x9E) == 0x17B7_BE43
  {}

  /**
   * The CRC-32 of the letter a is E8B7BE43, stored in that order, and that of nothing is 0: together they
   * fix start value, final inversion and byte order.
   */
  lemma CheckValue()
    ensures Checksum([0x61]) == 0xE8B7_BE43 && Checksum([]) == 0
    ensures PutChecksum(0xE8B7_BE43) == [0xE8, 0xB7, 0xBE, 0x43]
  {
    hide BitsOf, Shift8;
    LetterBits();
    LetterEntry();
    assert [0x61][1..] == [];
    assert Fold(ONES, [0x61]) == Fold(Update(ONES, 0x61), []) == 0x1748_41BC;
  }
}
