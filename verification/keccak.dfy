/**
 * Keccak-f[1600] as FIPS 202 section 3 defines it, over the lane order the
 * trace tool uses (contrib/rinhash_trace.cpp): lane x + 5y is A[x, y], and
 * bit z of a lane is bit z of the `uint64_t` (FIPS 202 Appendix B.1).
 *
 * The step mappings only move lanes around and combine them with XOR, NOT,
 * AND, rotation and the round constants, so they are written once over any
 * lane type with those operations (`LaneOps`). `Lanes64` is the `uint64_t`
 * instance the sponge uses, and `KeccakF` is the permutation on it.
 * `KeccakLoops` shows that the source's loops compute exactly these mappings.
 */
module Keccak {
  import opened KeccakTables

  /** The operations on lanes that Keccak-f is made of. */
  datatype LaneOps<!L> = LaneOps(
    xor: (L, L) -> L,
    not: L -> L,
    and: (L, L) -> L,
    rotl: (L, nat) -> L,
    roundConstant: nat -> L)

  /** The 1600-bit state of 64-bit lanes. */
  type State = s: seq<bv64> | |s| == 25 witness seq(25, _ => 0)

  /** The all-zero state the sponge starts from (`uint64_t st[25] = {}`). */
  function ZeroState(): (z: State)
    ensures forall i | 0 <= i < 25 :: z[i] == 0
  {
    seq(25, _ => 0)
  }

  /**
   * `rotl64`. A C++ shift by 64 or more is undefined, so the rotation is only
   * defined for amounts 1..63; every call in the source uses such an amount.
   */
  function Rotl64(x: bv64, s: nat): bv64
    requires 0 < s < 64
  {
    (x << s) | (x >> (64 - s))
  }

  /**
   * At every amount the source uses (theta's 1 and the 24 entries of
   * `keccakRho`), `rotl64` is a true 64-bit rotation.
   */
  lemma RotationsUsedAreRotations(x: bv64)
    ensures Rotl64(x, 1) == x.RotateLeft(1) && Rotl64(x, 2) == x.RotateLeft(2)
    ensures Rotl64(x, 3) == x.RotateLeft(3) && Rotl64(x, 6) == x.RotateLeft(6)
    ensures Rotl64(x, 8) == x.RotateLeft(8) && Rotl64(x, 10) == x.RotateLeft(10)
    ensures Rotl64(x, 14) == x.RotateLeft(14) && Rotl64(x, 15) == x.RotateLeft(15)
    ensures Rotl64(x, 18) == x.RotateLeft(18) && Rotl64(x, 20) == x.RotateLeft(20)
    ensures Rotl64(x, 21) == x.RotateLeft(21) && Rotl64(x, 25) == x.RotateLeft(25)
    ensures Rotl64(x, 27) == x.RotateLeft(27) && Rotl64(x, 28) == x.RotateLeft(28)
    ensures Rotl64(x, 36) == x.RotateLeft(36) && Rotl64(x, 39) == x.RotateLeft(39)
    ensures Rotl64(x, 41) == x.RotateLeft(41) && Rotl64(x, 43) == x.RotateLeft(43)
    ensures Rotl64(x, 44) == x.RotateLeft(44) && Rotl64(x, 45) == x.RotateLeft(45)
    ensures Rotl64(x, 55) == x.RotateLeft(55) && Rotl64(x, 56) == x.RotateLeft(56)
    ensures Rotl64(x, 61) == x.RotateLeft(61) && Rotl64(x, 62) == x.RotateLeft(62)
  {
  }

  /**
   * The `uint64_t` lane operations: `^`, `~`, `&`, `rotl64` and `keccakRC`.
   * Rotation amounts outside 1..63 and rounds past 23 never occur; they get
   * the identity and zero.
   */
  const Lanes64: LaneOps<bv64> := LaneOps(
    (a: bv64, b: bv64) => a ^ b,
    (a: bv64) => !a,
    (a: bv64, b: bv64) => a & b,
    (x: bv64, s: nat) => if 0 < s < 64 then Rotl64(x, s) else x,
    (ir: nat) => if ir < 24 then KeccakRC(ir) else 0)

  /** The `uint64_t` round constants are those of FIPS 202 Algorithm 6. */
  lemma Lanes64RoundConstants(ir: nat)
    requires ir < 24
    ensures Lanes64.roundConstant(ir) == RoundConstant(ir)
  {
    KeccakRCMatchesFips202(ir);
  }

  // ---- theta (FIPS 202 section 3.2.1) ----

  /** C[x]: the parity of column x. */
  function ColumnParity<L>(ops: LaneOps<L>, a: seq<L>, x: nat): L
    requires |a| == 25 && x < 5
  {
    ops.xor(ops.xor(ops.xor(ops.xor(a[x], a[x + 5]), a[x + 10]), a[x + 15]), a[x + 20])
  }

  /** D[x] = C[(x - 1) mod 5] xor ROT(C[(x + 1) mod 5], 1). */
  function ThetaEffect<L>(ops: LaneOps<L>, a: seq<L>, x: nat): L
    requires |a| == 25 && x < 5
  {
    ops.xor(ColumnParity(ops, a, (x - 1) % 5), ops.rotl(ColumnParity(ops, a, (x + 1) % 5), 1))
  }

  /** The first lane of the row holding lane i. */
  function RowStart(i: nat): (s: nat)
    requires i < 25
    ensures s <= i < s + 5 && s % 5 == 0
  {
    i / 5 * 5
  }

  /** Lane (x + k) mod 5 of the row holding lane i = x + 5y. */
  function RowNeighbour(i: nat, k: nat): (j: nat)
    requires i < 25
    ensures RowStart(i) <= j < RowStart(i) + 5
  {
    RowStart(i) + (i % 5 + k) % 5
  }

  /** The four lane-parallel step mappings. */
  datatype StepMapping = ThetaMap | RhoMap | PiMap | ChiMap

  /** Lane i of the output of step mapping m applied to state a. */
  function LaneAfter<L>(ops: LaneOps<L>, m: StepMapping, a: seq<L>, i: nat): L
    requires |a| == 25 && i < 25
  {
    match m
    // theta: A'[x, y] = A[x, y] xor D[x]
    case ThetaMap => ops.xor(a[i], ThetaEffect(ops, a, i % 5))
    // rho: lane (x, y) rotated by its Table 2 offset; lane 0's offset is 0
    case RhoMap => if i == 0 then a[0] else ops.rotl(a[i], FipsRhoOffset(i))
    // pi: A'[x, y] = A[(x + 3y) mod 5, x]
    case PiMap => a[PiSource(i)]
    // chi: A'[x, y] = A[x, y] xor ((A[(x + 1) mod 5, y] xor 1) and A[(x + 2) mod 5, y])
    case ChiMap => ops.xor(a[i], ops.and(ops.not(a[RowNeighbour(i, 1)]), a[RowNeighbour(i, 2)]))
  }

  /** The first k lanes of the output of step mapping m. */
  function LanesUpTo<L>(ops: LaneOps<L>, m: StepMapping, a: seq<L>, k: nat): (r: seq<L>)
    requires |a| == 25 && k <= 25
    ensures |r| == k
    ensures forall j | 0 <= j < k :: r[j] == LaneAfter(ops, m, a, j)
  {
    if k == 0 then [] else LanesUpTo(ops, m, a, k - 1) + [LaneAfter(ops, m, a, k - 1)]
  }

  /** Step mapping m applied to the whole state. */
  function Apply<L>(ops: LaneOps<L>, m: StepMapping, a: seq<L>): (r: seq<L>)
    requires |a| == 25
    ensures |r| == 25
  {
    LanesUpTo(ops, m, a, 25)
  }

  function Theta<L>(ops: LaneOps<L>, a: seq<L>): (r: seq<L>)
    requires |a| == 25
    ensures |r| == 25
  {
    Apply(ops, ThetaMap, a)
  }

  function Rho<L>(ops: LaneOps<L>, a: seq<L>): (r: seq<L>)
    requires |a| == 25
    ensures |r| == 25
  {
    Apply(ops, RhoMap, a)
  }

  function Pi<L>(ops: LaneOps<L>, a: seq<L>): (r: seq<L>)
    requires |a| == 25
    ensures |r| == 25
  {
    Apply(ops, PiMap, a)
  }

  function Chi<L>(ops: LaneOps<L>, a: seq<L>): (r: seq<L>)
    requires |a| == 25
    ensures |r| == 25
  {
    Apply(ops, ChiMap, a)
  }

  /**
   * Theta changes lane i by XOR with D of its column: all five lanes of a
   * column receive the same value.
   */
  lemma ThetaColumnUniform(a: State, i: nat)
    requires i < 25
    ensures Theta(Lanes64, a)[i] ^ a[i] == ThetaEffect(Lanes64, a, i % 5)
  {
  }

  /** Theta's effect on a lane depends on the state only through the five column parities. */
  lemma ThetaEffectFromParities<L>(ops: LaneOps<L>, a: seq<L>, b: seq<L>, x: nat)
    requires |a| == 25 && |b| == 25 && x < 5
    requires forall k | 0 <= k < 5 :: ColumnParity(ops, a, k) == ColumnParity(ops, b, k)
    ensures ThetaEffect(ops, a, x) == ThetaEffect(ops, b, x)
  {
  }

  /** Pi moves lane j to lane `PiDest(j)` and loses nothing: it is a permutation of the lanes. */
  lemma PiMovesLane<L>(ops: LaneOps<L>, a: seq<L>, j: nat)
    requires |a| == 25 && j < 25
    ensures Pi(ops, a)[PiDest(j)] == a[j]
  {
  }

  /** Rho and pi both keep lane 0 where it is, unrotated. */
  lemma RhoPiFixLaneZero<L>(ops: LaneOps<L>, a: seq<L>)
    requires |a| == 25
    ensures Rho(ops, a)[0] == a[0] && Pi(ops, a)[0] == a[0]
  {
  }

  /** Lane i of chi's output depends on three lanes of its row only. */
  lemma ChiLaneLocal<L>(ops: LaneOps<L>, a: seq<L>, b: seq<L>, i: nat)
    requires |a| == 25 && |b| == 25 && i < 25
    requires a[i] == b[i]
    requires a[RowNeighbour(i, 1)] == b[RowNeighbour(i, 1)]
    requires a[RowNeighbour(i, 2)] == b[RowNeighbour(i, 2)]
    ensures Chi(ops, a)[i] == Chi(ops, b)[i]
  {
  }

  /** Chi works row by row: a row of the output depends only on the same row of the input. */
  lemma ChiRowLocal<L>(ops: LaneOps<L>, a: seq<L>, b: seq<L>, y: nat)
    requires |a| == 25 && |b| == 25 && y < 5
    requires forall i | 5 * y <= i < 5 * y + 5 :: a[i] == b[i]
    ensures forall i | 5 * y <= i < 5 * y + 5 :: Chi(ops, a)[i] == Chi(ops, b)[i]
  {
    forall i | 5 * y <= i < 5 * y + 5
      ensures Chi(ops, a)[i] == Chi(ops, b)[i]
    {
      assert RowStart(i) == 5 * y;
      ChiLaneLocal(ops, a, b, i);
    }
  }

  // ---- iota (FIPS 202 section 3.2.5) ----
  function Iota<L>(ops: LaneOps<L>, a: seq<L>, ir: nat): (r: seq<L>)
    requires |a| == 25
    ensures |r| == 25
  {
    a[0 := ops.xor(a[0], ops.roundConstant(ir))]
  }

  /** Iota changes lane 0 only, by the FIPS 202 round constant. */
  lemma IotaOnlyLaneZero(a: State, ir: nat)
    requires ir < 24
    ensures Iota(Lanes64, a, ir)[0] ^ a[0] == RoundConstant(ir)
    ensures forall i | 1 <= i < 25 :: Iota(Lanes64, a, ir)[i] == a[i]
  {
    Lanes64RoundConstants(ir);
  }

  /** Iota undoes itself. */
  lemma IotaInvolution(a: State, ir: nat)
    ensures Iota(Lanes64, Iota(Lanes64, a, ir), ir) == a
  {
  }

  // ---- rounds (FIPS 202 sections 3.3 and 3.4) ----

  /** Rnd(A, ir) = iota(chi(pi(rho(theta(A)))), ir). */
  function Round<L>(ops: LaneOps<L>, a: seq<L>, ir: nat): (r: seq<L>)
    requires |a| == 25
    ensures |r| == 25
  {
    Iota(ops, Chi(ops, Pi(ops, Rho(ops, Theta(ops, a)))), ir)
  }

  /** Rounds 0..n-1 applied in order. */
  function Rounds<L>(ops: LaneOps<L>, a: seq<L>, n: nat): (r: seq<L>)
    requires |a| == 25
    ensures |r| == 25
  {
    if n == 0 then a else Round(ops, Rounds(ops, a, n - 1), n - 1)
  }

  /** Keccak-f[1600] = Keccak-p[1600, 24] on 64-bit lanes: rounds 0..23. */
  function KeccakF(a: State): State
  {
    Rounds(Lanes64, a, 24)
  }
}
