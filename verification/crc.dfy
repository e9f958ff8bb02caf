/** The 8-bit CRC used by the LKAS11 frame of some Hyundai platforms:
    generator 0x11D (x^8 + x^4 + x^3 + x^2 + 1), most significant bit
    first, initial CRC 0xFD and final XOR 0xDF, with the CRC library's
    convention that the initial value is the CRC of the empty input. */
module Crc {
  import opened Common

  /** Low eight bits of the generator polynomial. */
  const CRC8_POLY: bv8 := 0x1D
  /** The CRC of the empty input. */
  const CRC8_INIT_CRC: bv8 := 0xFD
  const CRC8_XOR_OUT: bv8 := 0xDF
  /** The shift register starts at the initial CRC with the final XOR undone. */
  const CRC8_REGISTER_INIT: bv8 := CRC8_INIT_CRC ^ CRC8_XOR_OUT

  // ---------------------------------------------------------------------
  // Bytes as bit-vectors

  /** The low `n` bits of `x` as a bit-vector, built least significant bit
      first. */
  function BitsOf(x: nat, n: nat): bv8
    requires n <= 8
  {
    if n == 0 then 0 else (BitsOf(x / 2, n - 1) << 1) | (if x % 2 == 1 then 1 else 0)
  }

  /** A byte as the bit-vector the register works on. */
  function ToBv8(x: Byte): bv8 {
    BitsOf(x, 8)
  }

  function ToBv8Seq(data: seq<Byte>): (r: seq<bv8>)
    ensures |r| == |data|
    ensures forall j :: 0 <= j < |data| ==> r[j] == ToBv8(data[j])
  {
    seq(|data|, j requires 0 <= j < |data| => ToBv8(data[j]))
  }

  /** All ones in the low `n` bits. */
  function LowMask(n: nat): bv8
    requires n <= 8
  {
    if n == 0 then 0 else (LowMask(n - 1) << 1) | 1
  }

  function Pow2(n: nat): nat {
    if n == 0 then 1 else 2 * Pow2(n - 1)
  }

  lemma LowMaskBelowTop(n: nat)
    requires n < 8
    ensures LowMask(n) < 0x80
  {
    assert LowMask(7) == 0x7F && LowMask(6) == 0x3F && LowMask(5) == 0x1F && LowMask(4) == 0x0F;
    assert LowMask(3) == 0x07 && LowMask(2) == 0x03 && LowMask(1) == 0x01 && LowMask(0) == 0;
  }

  lemma ShiftInBound(a: bv8, m: bv8, b: bv8)
    requires a <= m < 0x80 && b <= 1
    ensures (a << 1) | b <= (m << 1) | 1
  {
  }

  /** `n` bits never reach above the low `n` bits. */
  lemma {:induction false} BitsOfBound(x: nat, n: nat)
    requires n <= 8
    ensures BitsOf(x, n) <= LowMask(n)
  {
    if n > 0 {
      BitsOfBound(x / 2, n - 1);
      LowMaskBelowTop(n - 1);
      ShiftInBound(BitsOf(x / 2, n - 1), LowMask(n - 1), if x % 2 == 1 then 1 else 0);
    }
  }

  /** Shifting in a bit loses nothing while the top bit is clear. */
  lemma ShiftInInjective(a: bv8, b: bv8, c: bv8, d: bv8)
    requires a < 0x80 && c < 0x80 && b <= 1 && d <= 1
    requires (a << 1) | b == (c << 1) | d
    ensures a == c && b == d
  {
  }

  /** Equal bits agree in the lowest bit and in the bits above it. */
  lemma BitsOfStep(x: nat, y: nat, n: nat)
    requires 0 < n <= 8
    requires BitsOf(x, n) == BitsOf(y, n)
    ensures x % 2 == y % 2
    ensures BitsOf(x / 2, n - 1) == BitsOf(y / 2, n - 1)
  {
    BitsOfBound(x / 2, n - 1);
    BitsOfBound(y / 2, n - 1);
    LowMaskBelowTop(n - 1);
    ShiftInInjective(BitsOf(x / 2, n - 1), if x % 2 == 1 then 1 else 0,
                     BitsOf(y / 2, n - 1), if y % 2 == 1 then 1 else 0);
  }

  /** Numbers below 2^n are told apart by their low `n` bits. */
  lemma {:induction false} BitsOfInjective(x: nat, y: nat, n: nat)
    requires 0 < n <= 8 && x < Pow2(n) && y < Pow2(n)
    requires BitsOf(x, n) == BitsOf(y, n)
    ensures x == y
  {
    BitsOfStep(x, y, n);
    if n > 1 {
      BitsOfInjective(x / 2, y / 2, n - 1);
    }
  }

  /** Distinct bytes have distinct bit-vectors. */
  lemma ToBv8Injective(x: Byte, y: Byte)
    requires x != y
    ensures ToBv8(x) != ToBv8(y)
  {
    assert Pow2(8) == 256;
    if ToBv8(x) == ToBv8(y) {
      BitsOfInjective(x, y, 8);
    }
  }

  // ---------------------------------------------------------------------
  // The shift register

  /** One bit step, most significant bit first: shift left, and subtract
      the generator when a set bit falls off. */
  function ShiftBit(reg: bv8): bv8 {
    if reg & 0x80 != 0 then (reg << 1) ^ CRC8_POLY else reg << 1
  }

  /** Eight bit steps: what one input byte does after it is XORed in. */
  function ShiftByte(reg: bv8): bv8 {
    ShiftBit(ShiftBit(ShiftBit(ShiftBit(ShiftBit(ShiftBit(ShiftBit(ShiftBit(reg))))))))
  }

  /** The register after feeding `data`, first byte first. */
  function CrcRegister(reg: bv8, data: seq<bv8>): bv8
    decreases |data|
  {
    if data == [] then reg
    else ShiftByte(CrcRegister(reg, data[..|data| - 1]) ^ data[|data| - 1])
  }

  /** The CRC of a byte string. */
  function Crc8(data: seq<Byte>): Byte {
    (CrcRegister(CRC8_REGISTER_INIT, ToBv8Seq(data)) ^ CRC8_XOR_OUT) as int
  }

  /** The CRC of no bytes is the initial CRC. */
  lemma Crc8OfEmptyIsInitCrc()
    ensures Crc8([]) == CRC8_INIT_CRC as int
  {
  }

  /** Feeding one more byte is one byte step on the register so far. */
  lemma CrcRegisterSnoc(reg: bv8, data: seq<bv8>, x: bv8)
    ensures CrcRegister(reg, data + [x]) == ShiftByte(CrcRegister(reg, data) ^ x)
  {
    assert (data + [x])[..|data|] == data;
  }

  /** The register after seven zero bytes. */
  lemma CrcRegisterOfZeros()
    ensures CrcRegister(CRC8_REGISTER_INIT, [0x00, 0x00, 0x00, 0x00, 0x00, 0x00, 0x00]) == 0xD5
  {
    var d: seq<bv8> := [0x00, 0x00, 0x00, 0x00, 0x00, 0x00, 0x00];
    assert d[..1] == d[..0] + [0x00];
    CrcRegisterSnoc(CRC8_REGISTER_INIT, d[..0], 0x00);
    assert ShiftByte(0x22 ^ 0x00) == 0xBD;
    assert d[..2] == d[..1] + [0x00];
    CrcRegisterSnoc(CRC8_REGISTER_INIT, d[..1], 0x00);
    assert ShiftByte(0xBD ^ 0x00) == 0xED;
    assert d[..3] == d[..2] + [0x00];
    CrcRegisterSnoc(CRC8_REGISTER_INIT, d[..2], 0x00);
    assert ShiftByte(0xED ^ 0x00) == 0x33;
    assert d[..4] == d[..3] + [0x00];
    CrcRegisterSnoc(CRC8_REGISTER_INIT, d[..3], 0x00);
    assert ShiftByte(0x33 ^ 0x00) == 0x6D;
    assert d[..5] == d[..4] + [0x00];
    CrcRegisterSnoc(CRC8_REGISTER_INIT, d[..4], 0x00);
    assert ShiftByte(0x6D ^ 0x00) == 0x15;
    assert d[..6] == d[..5] + [0x00];
    CrcRegisterSnoc(CRC8_REGISTER_INIT, d[..5], 0x00);
    assert ShiftByte(0x15 ^ 0x00) == 0xA4;
    assert d[..7] == d[..6] + [0x00];
    CrcRegisterSnoc(CRC8_REGISTER_INIT, d[..6], 0x00);
    assert ShiftByte(0xA4 ^ 0x00) == 0xD5;
    assert d[..7] == d;
  }

  /** The register after the bytes 1, 2, 3, 4, 5, 6, 8. */
  lemma CrcRegisterOfCounting()
    ensures CrcRegister(CRC8_REGISTER_INIT, [0x01, 0x02, 0x03, 0x04, 0x05, 0x06, 0x08]) == 0x20
  {
    var d: seq<bv8> := [0x01, 0x02, 0x03, 0x04, 0x05, 0x06, 0x08];
    assert d[..1] == d[..0] + [0x01];
    CrcRegisterSnoc(CRC8_REGISTER_INIT, d[..0], 0x01);
    assert ShiftByte(0x22 ^ 0x01) == 0xA0;
    assert d[..2] == d[..1] + [0x02];
    CrcRegisterSnoc(CRC8_REGISTER_INIT, d[..1], 0x02);
    assert ShiftByte(0xA0 ^ 0x02) == 0x9B;
    assert d[..3] == d[..2] + [0x03];
    CrcRegisterSnoc(CRC8_REGISTER_INIT, d[..2], 0x03);
    assert ShiftByte(0x9B ^ 0x03) == 0x03;
    assert d[..4] == d[..3] + [0x04];
    CrcRegisterSnoc(CRC8_REGISTER_INIT, d[..3], 0x04);
    assert ShiftByte(0x03 ^ 0x04) == 0x53;
    assert d[..5] == d[..4] + [0x05];
    CrcRegisterSnoc(CRC8_REGISTER_INIT, d[..4], 0x05);
    assert ShiftByte(0x53 ^ 0x05) == 0x90;
    assert d[..6] == d[..5] + [0x06];
    CrcRegisterSnoc(CRC8_REGISTER_INIT, d[..5], 0x06);
    assert ShiftByte(0x90 ^ 0x06) == 0xA5;
    assert d[..7] == d[..6] + [0x08];
    CrcRegisterSnoc(CRC8_REGISTER_INIT, d[..6], 0x08);
    assert ShiftByte(0xA5 ^ 0x08) == 0x20;
    assert d[..7] == d;
  }

  /** Golden vector: seven zero bytes. */
  lemma Crc8OfZeros()
    ensures Crc8([0, 0, 0, 0, 0, 0, 0]) == 0x0A
  {
    CrcRegisterOfZeros();
    assert ToBv8(0) == 0x00;
    assert ToBv8Seq([0, 0, 0, 0, 0, 0, 0]) == [0x00, 0x00, 0x00, 0x00, 0x00, 0x00, 0x00];
  }

  /** Golden vector: the bytes 1, 2, 3, 4, 5, 6, 8. */
  lemma Crc8OfCounting()
    ensures Crc8([1, 2, 3, 4, 5, 6, 8]) == 0xFF
  {
    CrcRegisterOfCounting();
    assert ToBv8(1) == 0x01 && ToBv8(2) == 0x02 && ToBv8(3) == 0x03 && ToBv8(4) == 0x04;
    assert ToBv8(5) == 0x05 && ToBv8(6) == 0x06 && ToBv8(8) == 0x08;
    assert ToBv8Seq([1, 2, 3, 4, 5, 6, 8]) == [0x01, 0x02, 0x03, 0x04, 0x05, 0x06, 0x08];
  }

  // ---------------------------------------------------------------------
  // Single-byte error detection

  /** The byte step is injective (the generator has a constant term). */
  lemma ShiftByteInjective(a: bv8, b: bv8)
    requires a != b
    ensures ShiftByte(a) != ShiftByte(b)
  {
  }

  /** XOR with a fixed byte is injective, on either side. */
  lemma XorInjective(ra: bv8, rb: bv8, x: bv8)
    requires ra != rb
    ensures ra ^ x != rb ^ x
    ensures x ^ ra != x ^ rb
  {
  }

  /** Registers fed `p + [x]` and `p + [y]` with x != y end apart. */
  lemma SnocDiverges(reg: bv8, p: seq<bv8>, x: bv8, y: bv8)
    requires x != y
    ensures CrcRegister(reg, p + [x]) != CrcRegister(reg, p + [y])
  {
    CrcRegisterSnoc(reg, p, x);
    CrcRegisterSnoc(reg, p, y);
    StepApart(CrcRegister(reg, p), CrcRegister(reg, p), x, y);
  }

  /** Registers that are apart stay apart when both are fed the same byte. */
  lemma SnocStaysApart(reg: bv8, a: seq<bv8>, b: seq<bv8>, z: bv8)
    requires CrcRegister(reg, a) != CrcRegister(reg, b)
    ensures CrcRegister(reg, a + [z]) != CrcRegister(reg, b + [z])
  {
    CrcRegisterSnoc(reg, a, z);
    CrcRegisterSnoc(reg, b, z);
    StepApart(CrcRegister(reg, a), CrcRegister(reg, b), z, z);
  }

  /** A byte step from two distinct XORed inputs gives distinct registers. */
  lemma StepApart(ra: bv8, rb: bv8, x: bv8, y: bv8)
    requires ra ^ x != rb ^ y
    ensures ShiftByte(ra ^ x) != ShiftByte(rb ^ y)
  {
    ShiftByteInjective(ra ^ x, rb ^ y);
  }

  lemma SplitLast<T>(u: seq<T>, q: seq<T>)
    requires q != []
    ensures u + q == (u + q[..|q| - 1]) + [q[|q| - 1]]
  {
  }

  /** Registers fed `p + [x] + q` and `p + [y] + q` with x != y end apart. */
  lemma {:induction false} RegisterDiverges(reg: bv8, p: seq<bv8>, x: bv8, y: bv8, q: seq<bv8>)
    requires x != y
    ensures CrcRegister(reg, p + [x] + q) != CrcRegister(reg, p + [y] + q)
    decreases |q|
  {
    if q == [] {
      assert p + [x] + q == p + [x];
      assert p + [y] + q == p + [y];
      SnocDiverges(reg, p, x, y);
    } else {
      var q', z := q[..|q| - 1], q[|q| - 1];
      RegisterDiverges(reg, p, x, y, q');
      SplitLast(p + [x], q);
      SplitLast(p + [y], q);
      SnocStaysApart(reg, p + [x] + q', p + [y] + q', z);
    }
  }

  /** The CRC detects every single-byte error: two inputs of one length that
      differ in exactly one byte have different CRCs. */
  lemma Crc8DetectsSingleByteError(a: seq<Byte>, b: seq<Byte>, i: nat)
    requires |a| == |b| && i < |a| && a[i] != b[i]
    requires forall j :: 0 <= j < |a| && j != i ==> a[j] == b[j]
    ensures Crc8(a) != Crc8(b)
  {
    var ba, bb := ToBv8Seq(a), ToBv8Seq(b);
    ToBv8Injective(a[i], b[i]);
    SplitAround(ba, bb, i);
    RegisterDiverges(CRC8_REGISTER_INIT, ba[..i], ba[i], bb[i], ba[i + 1..]);
  }

  /** Two sequences that agree outside position `i` share the parts around it. */
  lemma SplitAround<T>(a: seq<T>, b: seq<T>, i: nat)
    requires |a| == |b| && i < |a|
    requires forall j :: 0 <= j < |a| && j != i ==> a[j] == b[j]
    ensures a == a[..i] + [a[i]] + a[i + 1..]
    ensures b == a[..i] + [b[i]] + a[i + 1..]
  {
    assert a[..i] == b[..i] && a[i + 1..] == b[i + 1..];
    assert b == b[..i] + [b[i]] + b[i + 1..];
  }

  /** The register over one more byte of a prefix. */
  lemma CrcRegisterPrefixStep(reg: bv8, bits: seq<bv8>, i: nat)
    requires i < |bits|
    ensures CrcRegister(reg, bits[..i + 1]) == ShiftByte(CrcRegister(reg, bits[..i]) ^ bits[i])
  {
    assert bits[..i + 1] == bits[..i] + [bits[i]];
    CrcRegisterSnoc(reg, bits[..i], bits[i]);
  }

  /** The CRC as a loop over the input. */
  method Crc8Loop(data: seq<Byte>) returns (crc: Byte)
    ensures crc == Crc8(data)
  {
    ghost var bits := ToBv8Seq(data);
    var reg := CRC8_REGISTER_INIT;
    var i := 0;
    while i < |data|
      invariant 0 <= i <= |data|
      invariant reg == CrcRegister(CRC8_REGISTER_INIT, bits[..i])
    {
      CrcRegisterPrefixStep(CRC8_REGISTER_INIT, bits, i);
      assert bits[i] == ToBv8(data[i]);
      reg := ShiftByte(reg ^ ToBv8(data[i]));
      i := i + 1;
    }
    assert bits[..|data|] == bits;
    crc := (reg ^ CRC8_XOR_OUT) as int;
  }
}
