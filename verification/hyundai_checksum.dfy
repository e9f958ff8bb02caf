/** The integrity checksums of the Hyundai frames, computed over packed
    payload bytes: the three LKAS11 variants (an 8-bit CRC and two byte
    sums), the SCC12 nibble checksum and the MDPS12 byte sum. */
module HyundaiChecksum {
  import opened Common
  import opened Crc

  // ---------------------------------------------------------------------
  // Python slicing

  /** `dat[lo:hi]` for 0 <= lo <= hi: the bounds are clipped to the length. */
  function Slice(dat: seq<Byte>, lo: nat, hi: nat): (r: seq<Byte>)
    requires lo <= hi
    ensures |dat| >= hi ==> r == dat[lo..hi]
    ensures |dat| <= lo ==> r == []
    ensures lo < |dat| < hi ==> r == dat[lo..]
  {
    var l := if lo < |dat| then lo else |dat|;
    var h := if hi < |dat| then hi else |dat|;
    dat[l..h]
  }

  function Sum(s: seq<Byte>): nat
    decreases |s|
  {
    if s == [] then 0 else Sum(s[..|s| - 1]) + s[|s| - 1]
  }

  lemma {:induction false} SumConcat(a: seq<Byte>, b: seq<Byte>)
    ensures Sum(a + b) == Sum(a) + Sum(b)
    decreases |b|
  {
    if b == [] {
      assert a + b == a;
    } else {
      SumConcat(a, b[..|b| - 1]);
      assert (a + b)[..|a + b| - 1] == a + b[..|b| - 1];
    }
  }

  /** The sum of six bytes, written out. */
  lemma SumOfSix(s: seq<Byte>)
    requires |s| == 6
    ensures Sum(s) == s[0] as int + s[1] + s[2] + s[3] + s[4] + s[5]
  {
    var s1, s2, s3, s4, s5 := s[..1], s[..2], s[..3], s[..4], s[..5];
    assert s1[..0] == [] && s2[..1] == s1 && s3[..2] == s2 && s4[..3] == s3 && s5[..4] == s4 && s[..5] == s5;
    assert Sum(s1) == s[0];
    assert Sum(s2) == Sum(s1) + s[1];
    assert Sum(s3) == Sum(s2) + s[2];
    assert Sum(s4) == Sum(s3) + s[3];
    assert Sum(s5) == Sum(s4) + s[4];
  }

  /** The byte sum modulo 256. */
  function SumMod256(s: seq<Byte>): Byte {
    Sum(s) % 256
  }

  /** Two byte values that differ stay different modulo 256 after the same
      offset is added. */
  lemma OffsetKeepsBytesApart(offset: int, x: Byte, y: Byte)
    requires x != y
    ensures (offset + x) % 256 != (offset + y) % 256
  {
  }

  /** Changing any one byte changes the byte sum modulo 256. */
  lemma SumMod256DetectsSingleByteError(a: seq<Byte>, b: seq<Byte>, i: nat)
    requires |a| == |b| && i < |a| && a[i] != b[i]
    requires forall j :: 0 <= j < |a| && j != i ==> a[j] == b[j]
    ensures SumMod256(a) != SumMod256(b)
  {
    var p, q := a[..i], a[i + 1..];
    assert b[..i] == p && b[i + 1..] == q;
    assert a == p + [a[i]] + q;
    assert b == p + [b[i]] + q;
    SumConcat(p + [a[i]], q);
    SumConcat(p, [a[i]]);
    SumConcat(p + [b[i]], q);
    SumConcat(p, [b[i]]);
    assert Sum([a[i]]) == a[i] && Sum([b[i]]) == b[i];
    OffsetKeepsBytesApart(Sum(p) + Sum(q), a[i], b[i]);
  }

  // ---------------------------------------------------------------------
  // LKAS11 checksum variants

  datatype LkasVariant = Crc8Variant | Sum6Variant | Sum6Byte7Variant

  /** The variant of a car: the CRC list is consulted first, then the
      six-byte-sum list; every other car uses the seven-byte sum. */
  function SelectVariant<C>(car: C, crc8Cars: set<C>, sixByteCars: set<C>): (v: LkasVariant)
    ensures v == Crc8Variant <==> car in crc8Cars
    ensures v == Sum6Variant <==> car !in crc8Cars && car in sixByteCars
    ensures v == Sum6Byte7Variant <==> car !in crc8Cars && car !in sixByteCars
  {
    if car in crc8Cars then Crc8Variant
    else if car in sixByteCars then Sum6Variant
    else Sum6Byte7Variant
  }

  /** The LKAS11 checksum of a payload packed with a zero checksum field.
      The seven-byte sum reads byte 7 directly and fails on a shorter payload. */
  function LkasChecksum(v: LkasVariant, dat: seq<Byte>): Result<Byte> {
    match v
    case Crc8Variant => Ok(Crc8(Slice(dat, 0, 6) + Slice(dat, 7, 8)))
    case Sum6Variant => Ok(Sum(Slice(dat, 0, 6)) % 256)
    case Sum6Byte7Variant =>
      if |dat| < 8 then Err(IndexError) else Ok((Sum(Slice(dat, 0, 6)) + dat[7]) % 256)
  }

  /** On a full eight-byte payload: the CRC runs over bytes 0-5 then byte 7,
      the sums are over bytes 0-5 (and byte 7), and none of them fails. */
  lemma LkasChecksumOnFullPayload(v: LkasVariant, dat: seq<Byte>)
    requires |dat| == 8
    ensures LkasChecksum(v, dat).Ok?
    ensures v == Crc8Variant ==> LkasChecksum(v, dat).value == Crc8(dat[0..6] + [dat[7]])
    ensures v == Sum6Variant ==>
              LkasChecksum(v, dat).value == (dat[0] as int + dat[1] + dat[2] + dat[3] + dat[4] + dat[5]) % 256
    ensures v == Sum6Byte7Variant ==>
              LkasChecksum(v, dat).value == (dat[0] as int + dat[1] + dat[2] + dat[3] + dat[4] + dat[5] + dat[7]) % 256
  {
    SumOfSix(dat[0..6]);
    assert dat[7..8] == [dat[7]];
  }

  /** Byte 6 (counter and checksum byte) never enters any variant. */
  lemma LkasChecksumIgnoresByte6(v: LkasVariant, a: seq<Byte>, b: seq<Byte>)
    requires |a| == |b|
    requires forall j :: 0 <= j < |a| && j != 6 ==> a[j] == b[j]
    ensures LkasChecksum(v, a) == LkasChecksum(v, b)
  {
    assert Slice(a, 0, 6) == Slice(b, 0, 6);
    assert Slice(a, 7, 8) == Slice(b, 7, 8);
  }

  /** The seven-byte sum fails exactly on payloads shorter than eight bytes;
      the other two variants never fail. */
  lemma LkasChecksumFailsOnlyOnShortPayload(v: LkasVariant, dat: seq<Byte>)
    ensures LkasChecksum(v, dat).Err? <==> v == Sum6Byte7Variant && |dat| < 8
  {
  }

  /** Changing one of bytes 0-5 of an eight-byte payload changes the checksum,
      whichever variant the car uses. */
  lemma LkasChecksumDetectsSingleByteError(v: LkasVariant, a: seq<Byte>, b: seq<Byte>, i: nat)
    requires |a| == |b| == 8 && i < 6 && a[i] != b[i]
    requires forall j :: 0 <= j < 8 && j != i ==> a[j] == b[j]
    ensures LkasChecksum(v, a) != LkasChecksum(v, b)
  {
    var a6, b6 := a[0..6], b[0..6];
    assert a[7..8] == [a[7]] && b[7..8] == [b[7]];
    match v
    case Crc8Variant =>
      Crc8DetectsSingleByteError(a6 + [a[7]], b6 + [b[7]], i);
    case Sum6Variant =>
      SumMod256DetectsSingleByteError(a6, b6, i);
    case Sum6Byte7Variant =>
      SumConcat(a6, [a[7]]);
      SumConcat(b6, [b[7]]);
      assert Sum([a[7]]) == a[7] && Sum([b[7]]) == b[7];
      SumMod256DetectsSingleByteError(a6 + [a[7]], b6 + [b[7]], i);
  }

  // ---------------------------------------------------------------------
  // SCC12 nibble checksum

  /** Sum of the high and low nibble of every byte. */
  function NibbleSum(dat: seq<Byte>): nat
    decreases |dat|
  {
    if dat == [] then 0 else NibbleSum(dat[..|dat| - 1]) + dat[|dat| - 1] / 16 + dat[|dat| - 1] % 16
  }

  /** The SCC12 checksum completes the nibble sum of the zero-checksum
      payload to a multiple of 16. It lies in 1..16 and is never 0: a
      payload whose nibble sum is already a multiple of 16 gets 16, which
      does not fit the four-bit field. */
  function Scc12Checksum(dat: seq<Byte>): (c: int)
    ensures 1 <= c <= 16
    ensures (NibbleSum(dat) + c) % 16 == 0
    ensures c == 16 <==> NibbleSum(dat) % 16 == 0
  {
    16 - NibbleSum(dat) % 16
  }

  /** An all-zero payload gets the out-of-field value 16. */
  lemma {:induction false} Scc12ChecksumOfZeroPayload(n: nat)
    ensures Scc12Checksum(seq(n, _ => 0)) == 16
  {
    if n > 0 {
      Scc12ChecksumOfZeroPayload(n - 1);
      assert seq(n, _ => 0)[..n - 1] == seq(n - 1, _ => 0);
    }
  }

  // ---------------------------------------------------------------------
  // MDPS12 byte sum

  /** The MDPS12 checksum is the byte sum of the whole zero-checksum
      payload, modulo 256. */
  function Mdps12Checksum(dat: seq<Byte>): Byte {
    SumMod256(dat)
  }
}
