/**
 * The trace tool's `sha3_256` (contrib/rinhash_trace.cpp): a sponge of rate
 * 136 bytes over Keccak-f[1600], absorbing whole blocks of the input, then
 * the remaining bytes padded in a 136-byte buffer, then squeezing 32 bytes.
 *
 * `Sha3_256` is the sponge as a function; `Sha3_256Loop` is the source's loop
 * structure, proved to compute it.
 */
module Sha3 {
  import opened Lanes
  import opened Keccak
  import KeccakLoops

  /** The rate in bytes: 1600 - 2 * 256 bits = 1088 bits. */
  const Rate: nat := 136

  /** Lanes covered by one block (`rate / 8`). */
  const RateLanes: nat := 17

  /** The 17 lanes of a block: lane i is `memcpy(&v, block + i * 8, 8)`. */
  function BlockLanes(block: Bytes): (ls: seq<bv64>)
    requires |block| == Rate
    ensures |ls| == RateLanes
    ensures forall i | 0 <= i < RateLanes :: ls[i] == LoadLane(block[8 * i .. 8 * i + 8])
  {
    seq(RateLanes, i requires 0 <= i < RateLanes => LoadLane(block[8 * i .. 8 * i + 8]))
  }

  /** The state with the first k of the given lanes XORed into it. */
  function XorLanes<L>(ops: LaneOps<L>, st: seq<L>, lanes: seq<L>, k: nat): (r: seq<L>)
    requires |st| == 25 && k <= |lanes| <= 25
    ensures |r| == 25
    ensures forall i | 0 <= i < k :: r[i] == ops.xor(st[i], lanes[i])
    ensures forall i | k <= i < 25 :: r[i] == st[i]
  {
    if k == 0 then st
    else
      var p := XorLanes(ops, st, lanes, k - 1);
      p[k - 1 := ops.xor(p[k - 1], lanes[k - 1])]
  }

  /** A 136-byte block XORed into the rate part of the state; the capacity lanes 17..24 are untouched. */
  function XorBlock(st: State, block: Bytes): State
    requires |block| == Rate
  {
    XorLanes(Lanes64, st, BlockLanes(block), RateLanes)
  }

  /** Absorbing one block: XOR it in, then apply Keccak-f. */
  function AbsorbBlock(st: State, block: Bytes): State
    requires |block| == Rate
  {
    KeccakF(XorBlock(st, block))
  }

  /**
   * The last block: a zeroed 136-byte buffer holding the remaining bytes,
   * the domain separator 0x06 right after them, and 0x80 ORed into the
   * last byte.
   */
  function PadBlock(tail: Bytes): (buf: Bytes)
    requires |tail| < Rate
    ensures |buf| == Rate
  {
    var buf := (tail + Zeros(Rate - |tail|))[|tail| := 0x06];
    buf[Rate - 1 := buf[Rate - 1] | 0x80]
  }

  /** Absorb every whole block of m, then the padded remainder. */
  function Absorb(st: State, m: Bytes): State
    decreases |m|
  {
    if |m| >= Rate then Absorb(AbsorbBlock(st, m[..Rate]), m[Rate..])
    else AbsorbBlock(st, PadBlock(m))
  }

  /** `memcpy(output, st, 32)`: the first four lanes, little-endian. */
  function Squeeze(st: State): Digest32
  {
    StoreLane(st[0]) + StoreLane(st[1]) + StoreLane(st[2]) + StoreLane(st[3])
  }

  /** SHA3-256 of a message of any length. */
  function Sha3_256(m: Bytes): Digest32
  {
    Squeeze(Absorb(ZeroState(), m))
  }

  /** The lane-by-lane XOR loop of one block (`st[i] ^= v`). */
  method XorBlockLoop(st0: State, block: Bytes) returns (st: State)
    requires |block| == Rate
    ensures st == XorBlock(st0, block)
  {
    st := st0;
    ghost var lanes := BlockLanes(block);
    for i := 0 to RateLanes
      invariant st == XorLanes(Lanes64, st0, lanes, i)
    {
      var v := LoadLane(block[i * 8 .. i * 8 + 8]);
      assert v == lanes[i];
      st := st[i := Lanes64.xor(st[i], v)];
    }
  }

  /** The first n elements of a suffix, and what follows them. */
  lemma SuffixSplit<T>(s: seq<T>, a: nat, n: nat)
    requires a + n <= |s|
    ensures s[a..][..n] == s[a .. a + n] && s[a..][n..] == s[a + n..]
  {
  }

  /** `sha3_256`: the absorb loop over whole blocks, the padded last block, the squeeze. */
  method Sha3_256Loop(input: Bytes) returns (output: Digest32)
    ensures output == Sha3_256(input)
  {
    var st := ZeroState();
    var offset := 0;
    while offset + Rate <= |input|
      invariant offset <= |input|
      invariant Absorb(st, input[offset..]) == Absorb(ZeroState(), input)
      decreases |input| - offset
    {
      SuffixSplit(input, offset, Rate);
      st := XorBlockLoop(st, input[offset .. offset + Rate]);
      st := KeccakLoops.KeccakF64(st);
      offset := offset + Rate;
    }
    var buf := PadBlock(input[offset..]);
    st := XorBlockLoop(st, buf);
    st := KeccakLoops.KeccakF64(st);
    output := Squeeze(st);
  }
}
