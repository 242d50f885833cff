/**
 * Byte strings and 64-bit lanes as FIPS 202 uses them.
 * Lanes are loaded from and stored to bytes little-endian (FIPS 202 Appendix B.1);
 * the trace tool's `memcpy` between `uint8_t` buffers and `uint64_t` lanes is
 * modelled as that fixed byte order, not as the host machine's.
 */
module Lanes {

  type Byte = bv8
  type Bytes = seq<bv8>

  /** A 32-byte digest, as produced by every hash stage of the pipeline. */
  type Digest32 = d: Bytes | |d| == 32 witness seq(32, _ => 0)

  function Zeros(n: nat): (z: Bytes)
    ensures |z| == n
    ensures forall i | 0 <= i < n :: z[i] == 0
  {
    seq(n, _ => 0)
  }

  /** The byte holding a value 0..255, as a cast to `uint8_t` gives it. */
  function ByteOfInt(n: int): (b: Byte)
    requires 0 <= n < 256
    ensures b as int == n
  {
    if n == 0 then 0 else ByteOfInt(n - 1) + 1
  }

  /** Two bytes with the same value are the same byte. */
  lemma ByteValueInjective(x: Byte, y: Byte)
    requires x as int == y as int
    ensures x == y
  {
  }

  /** Every byte is the byte of its value. */
  lemma ByteOfIntOfByte(b: Byte)
    ensures ByteOfInt(b as int) == b
  {
    ByteValueInjective(ByteOfInt(b as int), b);
  }

  /** Byte `k` (0 = least significant) of lane `w`. */
  function ByteOf(w: bv64, k: bv64): Byte
    requires k < 8
  {
    ((w >> (8 * k)) & 0xff) as bv8
  }

  /** The 8 little-endian bytes of a lane. */
  function StoreLane(w: bv64): (b: Bytes)
    ensures |b| == 8
  {
    [ByteOf(w, 0), ByteOf(w, 1), ByteOf(w, 2), ByteOf(w, 3),
     ByteOf(w, 4), ByteOf(w, 5), ByteOf(w, 6), ByteOf(w, 7)]
  }

  /** The lane whose little-endian bytes are `b`. */
  function LoadLane(b: Bytes): bv64
    requires |b| == 8
  {
    (b[0] as bv64) | (b[1] as bv64 << 8) | (b[2] as bv64 << 16) | (b[3] as bv64 << 24)
    | (b[4] as bv64 << 32) | (b[5] as bv64 << 40) | (b[6] as bv64 << 48) | (b[7] as bv64 << 56)
  }

  /** Loading the stored bytes of a lane gives the lane back. */
  lemma LoadStoreLane(w: bv64)
    ensures LoadLane(StoreLane(w)) == w
  {
  }

  /** Storing a loaded lane gives the 8 bytes back. */
  lemma StoreLoadLane(b: Bytes)
    requires |b| == 8
    ensures StoreLane(LoadLane(b)) == b
  {
  }
}
