/**
 * CRC-32 as `zlib.crc32` computes it: the CRC of section 8 of RFC 1952
 * (generator polynomial of ISO 3309 in bit-reflected form 0xEDB88320,
 * register preset to all ones and complemented at the end), written bit by
 * bit as that section's `make_crc_table` defines each table entry.
 */
module Crc32 {

  /** The reflected generator polynomial. */
  const Polynomial: bv32 := 0xEDB8_8320

  /**
   * One shift of the reflected register: shift right, and when the bit
   * shifted out was set, xor in the polynomial (`0 - (c & 1)` is all ones
   * exactly then).
   */
  function BitStep(c: bv32): bv32
  {
    (c >> 1) ^ (Polynomial & (0 - (c & 1)))
  }

  /** The step in the branching form of `make_crc_table` in RFC 1952, section 8. */
  lemma BitStepBranches(c: bv32)
    ensures c & 1 == 1 ==> BitStep(c) == (c >> 1) ^ Polynomial
    ensures c & 1 == 0 ==> BitStep(c) == c >> 1
  {
  }

  /** `k` shifts of the register. */
  function Shifts(c: bv32, k: nat): bv32
    decreases k
  {
    if k == 0 then c else BitStep(Shifts(c, k - 1))
  }

  const BitsPerByte: nat := 8

  /** The register after absorbing one byte: xor it into the low end, then shift once per bit. */
  function ByteStep(c: bv32, b: bv8): bv32
  {
    Shifts(c ^ (b as bv32), BitsPerByte)
  }

  /** The register after absorbing `bytes`, first byte first. */
  function Update(c: bv32, bytes: seq<bv8>): bv32
    decreases |bytes|
  {
    if bytes == [] then c else Update(ByteStep(c, bytes[0]), bytes[1..])
  }

  /** `zlib.crc32(bytes)`. */
  function Crc(bytes: seq<bv8>): bv32
  {
    Update(0xFFFF_FFFF, bytes) ^ 0xFFFF_FFFF
  }

  /** `zlib.crc32(bytes, prev)`: continues a checksum computed over earlier bytes. */
  function CrcFrom(prev: bv32, bytes: seq<bv8>): bv32
  {
    Update(prev ^ 0xFFFF_FFFF, bytes) ^ 0xFFFF_FFFF
  }

  lemma {:induction false} UpdateAppend(c: bv32, a: seq<bv8>, b: seq<bv8>)
    ensures Update(c, a + b) == Update(Update(c, a), b)
    decreases |a|
  {
    if a == [] {
      assert a + b == b;
    } else {
      assert (a + b)[1..] == a[1..] + b;
      UpdateAppend(ByteStep(c, a[0]), a[1..], b);
    }
  }

  lemma XorTwice(u: bv32)
    ensures (u ^ 0xFFFF_FFFF) ^ 0xFFFF_FFFF == u
  {
  }

  lemma CrcFromCrc(a: seq<bv8>, b: seq<bv8>)
    ensures CrcFrom(Crc(a), b) == Update(Update(0xFFFF_FFFF, a), b) ^ 0xFFFF_FFFF
  {
    var u := Update(0xFFFF_FFFF, a);
    XorTwice(u);
    assert Crc(a) ^ 0xFFFF_FFFF == u;
  }

  /** Checksumming in two pieces, the second continuing from the first, gives the checksum of the whole. */
  lemma CrcContinues(a: seq<bv8>, b: seq<bv8>)
    ensures CrcFrom(Crc(a), b) == Crc(a + b)
  {
    CrcFromCrc(a, b);
    UpdateAppend(0xFFFF_FFFF, a, b);
  }

  /** The checksum of the empty input is zero. */
  lemma CrcEmpty()
    ensures Crc([]) == 0
  {
  }

  /**
   * The check value of CRC-32: the nine ASCII digits "123456789" give
   * 0xCBF43926, as for `zlib.crc32(b"123456789")`. Each step states the
   * register after one more byte.
   */
  lemma CheckValue()
    ensures Crc([0x31, 0x32, 0x33, 0x34, 0x35, 0x36, 0x37, 0x38, 0x39]) == 0xCBF4_3926
  {
    assert ByteStep(0xFFFFFFFF, 0x31) == 0x7C231048;
    assert ByteStep(0x7C231048, 0x32) == 0xB0ACBB32;
    assert ByteStep(0xB0ACBB32, 0x33) == 0x77B79C2D;
    assert ByteStep(0x77B79C2D, 0x34) == 0x641C1F5C;
    assert ByteStep(0x641C1F5C, 0x35) == 0x340AC5E3;
    assert ByteStep(0x340AC5E3, 0x36) == 0xF68D2C9E;
    assert ByteStep(0xF68D2C9E, 0x37) == 0xAFFC9660;
    assert ByteStep(0xAFFC9660, 0x38) == 0x651F2550;
    assert ByteStep(0x651F2550, 0x39) == 0x340BC6D9;
    assert Update(0x340BC6D9, []) == 0x340BC6D9;
    assert Update(0x651F2550, [0x39]) == 0x340BC6D9;
    assert Update(0xAFFC9660, [0x38, 0x39]) == 0x340BC6D9;
    assert Update(0xF68D2C9E, [0x37, 0x38, 0x39]) == 0x340BC6D9;
    assert Update(0x340AC5E3, [0x36, 0x37, 0x38, 0x39]) == 0x340BC6D9;
    assert Update(0x641C1F5C, [0x35, 0x36, 0x37, 0x38, 0x39]) == 0x340BC6D9;
    assert Update(0x77B79C2D, [0x34, 0x35, 0x36, 0x37, 0x38, 0x39]) == 0x340BC6D9;
    assert Update(0xB0ACBB32, [0x33, 0x34, 0x35, 0x36, 0x37, 0x38, 0x39]) == 0x340BC6D9;
    assert Update(0x7C231048, [0x32, 0x33, 0x34, 0x35, 0x36, 0x37, 0x38, 0x39]) == 0x340BC6D9;
    assert Update(0xFFFFFFFF, [0x31, 0x32, 0x33, 0x34, 0x35, 0x36, 0x37, 0x38, 0x39]) == 0x340BC6D9;
  }
}
