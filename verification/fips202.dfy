/**
 * SHA3-256 as FIPS 202 states it: SHA3-256(M) = KECCAK[512](M || 01, 256),
 * the sponge over Keccak-f[1600] with rate r = 1088 bits and pad10*1
 * (sections 4, 5.1 and 6.1), written independently of the trace tool's
 * buffer handling, and proved equal to `Sha3.Sha3_256`.
 */
module Fips202 {
  import opened Lanes
  import opened Keccak
  import opened Sha3

  // ---- the padding, in bytes ----

  /**
   * The bytes that SHA-3's suffix 01 and pad10*1 add to a message whose last
   * block has n free bytes (FIPS 202 Appendix B.2): 0x06, zeros and 0x80, or
   * the single byte 0x86 when only one byte is free.
   */
  function Sha3PadBytes(n: nat): (p: Bytes)
    requires 1 <= n
    ensures |p| == n
  {
    if n == 1 then [0x86] else [0x06] + Zeros(n - 2) + [0x80]
  }

  /** The padded message M || 01 || pad10*1, as bytes. */
  function Padded(m: Bytes): (p: Bytes)
    ensures |p| % Rate == 0 && |m| < |p| <= |m| + Rate
    ensures p[..|m|] == m
  {
    m + Sha3PadBytes(Rate - |m| % Rate)
  }

  /** The source's last-block buffer is the remaining bytes followed by the FIPS 202 padding. */
  lemma PadBlockAppendsPadding(tail: Bytes)
    requires |tail| < Rate
    ensures PadBlock(tail) == tail + Sha3PadBytes(Rate - |tail|)
  {
    var n := Rate - |tail|;
    var p := PadBlock(tail);
    var q := tail + Sha3PadBytes(n);
    forall i | 0 <= i < Rate
      ensures p[i] == q[i]
    {
      if i < |tail| {
      } else if i == |tail| && n == 1 {
        assert p[i] == 0x06 | 0x80;
      } else if i == |tail| {
      } else if i == Rate - 1 {
        assert q[i] == 0x80;
      } else {
        assert q[i] == Zeros(n - 2)[i - |tail| - 1];
      }
    }
  }

  // ---- the sponge ----

  /** Dropping one block keeps the length's remainder modulo the rate. */
  lemma DropBlockMod(n: nat)
    requires Rate <= n
    ensures (n - Rate) % Rate == n % Rate
  {
    var q, r := n / Rate, n % Rate;
    assert n == Rate * q + r;
    assert n - Rate == Rate * (q - 1) + r;
  }

  lemma DropFromAppend<T>(s: seq<T>, t: seq<T>, n: nat)
    requires n <= |s|
    ensures (s + t)[..n] == s[..n] && (s + t)[n..] == s[n..] + t
  {
  }

  /** Absorb a whole number of blocks, each XORed in and followed by Keccak-f. */
  function AbsorbBlocks(st: State, p: Bytes): State
    requires |p| % Rate == 0
    decreases |p|
  {
    if |p| == 0 then st
    else
      DropBlockMod(|p|);
      AbsorbBlocks(AbsorbBlock(st, p[..Rate]), p[Rate..])
  }

  /** SHA3-256(M): absorb M || 01 || pad10*1, then truncate the first lanes to 256 bits. */
  function Sha3Reference(m: Bytes): Digest32
  {
    Squeeze(AbsorbBlocks(ZeroState(), Padded(m)))
  }

  /** One step of the source's absorb loop. */
  lemma AbsorbWholeBlock(st: State, m: Bytes)
    requires |m| >= Rate
    ensures Absorb(st, m) == Absorb(AbsorbBlock(st, m[..Rate]), m[Rate..])
  {
  }

  /** One step of the sponge over a padded message. */
  lemma AbsorbBlocksStep(st: State, p: Bytes)
    requires |p| % Rate == 0 && |p| >= Rate
    ensures (|p| - Rate) % Rate == 0
    ensures AbsorbBlocks(st, p) == AbsorbBlocks(AbsorbBlock(st, p[..Rate]), p[Rate..])
  {
    DropBlockMod(|p|);
  }

  /** Padding a message that spans a block pads the rest of it the same way. */
  lemma PaddedDropsBlock(m: Bytes)
    requires |m| >= Rate
    ensures Padded(m)[..Rate] == m[..Rate] && Padded(m)[Rate..] == Padded(m[Rate..])
  {
    DropBlockMod(|m|);
    DropFromAppend(m, Sha3PadBytes(Rate - |m| % Rate), Rate);
  }

  /** A message shorter than a block pads to a single block, the source's last buffer. */
  lemma PaddedShort(m: Bytes)
    requires |m| < Rate
    ensures Padded(m) == PadBlock(m)
  {
    assert |m| % Rate == |m|;
    PadBlockAppendsPadding(m);
  }

  /** The sponge over a single block absorbs that block. */
  lemma AbsorbOneBlock(st: State, p: Bytes)
    requires |p| == Rate
    ensures AbsorbBlocks(st, p) == AbsorbBlock(st, p)
  {
    AbsorbBlocksStep(st, p);
    assert p[..Rate] == p;
    assert |p[Rate..]| == 0;
  }

  /** The source's absorb loop plus its padded last block is the sponge over the padded message. */
  lemma {:induction false} AbsorbIsSpongeOfPadded(st: State, m: Bytes)
    ensures Absorb(st, m) == AbsorbBlocks(st, Padded(m))
    decreases |m|
  {
    if |m| >= Rate {
      var st' := AbsorbBlock(st, m[..Rate]);
      AbsorbIsSpongeOfPadded(st', m[Rate..]);
      AbsorbWholeBlock(st, m);
      PaddedDropsBlock(m);
      AbsorbBlocksStep(st, Padded(m));
    } else {
      PaddedShort(m);
      AbsorbOneBlock(st, PadBlock(m));
    }
  }

  /** The trace tool's `sha3_256` is FIPS 202 SHA3-256, for messages of every length. */
  lemma Sha3MatchesFips202(m: Bytes)
    ensures Sha3_256(m) == Sha3Reference(m)
  {
    AbsorbIsSpongeOfPadded(ZeroState(), m);
  }

  // ---- the padding, in bits ----

  function Falses(n: nat): (z: seq<bool>)
    ensures |z| == n
    ensures forall i | 0 <= i < n :: !z[i]
  {
    seq(n, _ => false)
  }

  /** The bits of a byte, least significant first (FIPS 202 Appendix B.1). */
  function ByteBits(b: Byte): (bits: seq<bool>)
    ensures |bits| == 8
  {
    [b & 1 != 0, b & 2 != 0, b & 4 != 0, b & 8 != 0,
     b & 16 != 0, b & 32 != 0, b & 64 != 0, b & 128 != 0]
  }

  /** The bit string of a byte string, byte by byte. */
  function BytesToBits(s: Bytes): (bits: seq<bool>)
    ensures |bits| == 8 * |s|
  {
    if s == [] then [] else ByteBits(s[0]) + BytesToBits(s[1..])
  }

  /** pad10*1(x, m) = 1 || 0^j || 1 with j = (-m - 2) mod x (FIPS 202 Algorithm 9). */
  function Pad101(x: nat, m: nat): seq<bool>
    requires 0 < x
  {
    [true] + Falses((-(m as int) - 2) % x) + [true]
  }

  lemma {:induction false} BytesToBitsAppend(s: Bytes, t: Bytes)
    ensures BytesToBits(s + t) == BytesToBits(s) + BytesToBits(t)
    decreases |s|
  {
    if s == [] {
      assert s + t == t;
    } else {
      assert (s + t)[0] == s[0];
      assert (s + t)[1..] == s[1..] + t;
      BytesToBitsAppend(s[1..], t);
    }
  }

  lemma {:induction false} ZerosToBits(n: nat)
    ensures BytesToBits(Zeros(n)) == Falses(8 * n)
  {
    if n > 0 {
      assert Zeros(n)[1..] == Zeros(n - 1);
      ZerosToBits(n - 1);
    }
  }

  /** The free-byte count n gives j = 8n - 4 zero bits, whatever the message length. */
  lemma PadLength(len: nat)
    ensures (-((8 * len + 2) as int) - 2) % (8 * Rate) == 8 * (Rate - len % Rate) - 4
  {
    var q, r := len / Rate, len % Rate;
    assert len == Rate * q + r;
    assert -((8 * len + 2) as int) - 2 == 8 * (Rate - r) - 4 + (8 * Rate) * (-(q as int) - 1);
  }

  /** The padding bytes of a block with two or more free bytes, byte by byte as bits. */
  lemma PadBytesBitsLong(n: nat)
    requires 2 <= n
    ensures BytesToBits(Sha3PadBytes(n)) == ByteBits(0x06) + Falses(8 * (n - 2)) + ByteBits(0x80)
  {
    var z := Zeros(n - 2);
    BytesToBitsAppend([0x06] + z, [0x80]);
    BytesToBitsAppend([0x06], z);
    ZerosToBits(n - 2);
    assert BytesToBits([0x06]) == ByteBits(0x06);
    assert BytesToBits([0x80]) == ByteBits(0x80);
  }

  /** The padding bytes as bits: 0, 1 (the suffix), then 1, 8n - 4 zeros and 1. */
  lemma PadBytesBits(n: nat)
    requires 1 <= n
    ensures BytesToBits(Sha3PadBytes(n)) == [false, true, true] + Falses(8 * n - 4) + [true]
  {
    if n == 1 {
      assert BytesToBits([0x86]) == ByteBits(0x86);
    } else {
      PadBytesBitsLong(n);
      var bits := BytesToBits(Sha3PadBytes(n));
      var expected := [false, true, true] + Falses(8 * n - 4) + [true];
      forall i | 0 <= i < 8 * n
        ensures bits[i] == expected[i]
      {
      }
    }
  }

  /**
   * As bits, the bytes the source appends are the SHA-3 suffix 01 followed
   * by pad10*1 for rate 1088 and the 8|M| + 2 bits of M || 01.
   */
  lemma PadBytesAreFips202Bits(len: nat)
    ensures BytesToBits(Sha3PadBytes(Rate - len % Rate)) == [false, true] + Pad101(8 * Rate, 8 * len + 2)
  {
    var n := Rate - len % Rate;
    PadLength(len);
    PadBytesBits(n);
    assert [false, true] + Pad101(8 * Rate, 8 * len + 2) == [false, true, true] + Falses(8 * n - 4) + [true];
  }
}
