/**
 * The fixed tables of the trace tool's Keccak-f[1600] (contrib/rinhash_trace.cpp)
 * and the FIPS 202 definitions they are checked against.
 *
 * The source's `static const` arrays are modelled as total functions on their
 * index range, one `case` per array element in array order.
 *
 * Lane (x, y) of the 5x5 state lives at index x + 5y (FIPS 202 section 3.1.2 with
 * the lane order of Appendix B.1). "Column" x is the five lanes with that x,
 * "row" y the five lanes with that y.
 */
module KeccakTables {

  /** `keccakRC[i]`: the iota round constant of round i. */
  function KeccakRC(i: nat): bv64
    requires i < 24
  {
    match i
    case 0 => 0x0000000000000001 case 1 => 0x0000000000008082 case 2 => 0x800000000000808a case 3 => 0x8000000080008000
    case 4 => 0x000000000000808b case 5 => 0x0000000080000001 case 6 => 0x8000000080008081 case 7 => 0x8000000000008009
    case 8 => 0x000000000000008a case 9 => 0x0000000000000088 case 10 => 0x0000000080008009 case 11 => 0x000000008000000a
    case 12 => 0x000000008000808b case 13 => 0x800000000000008b case 14 => 0x8000000000008089 case 15 => 0x8000000000008003
    case 16 => 0x8000000000008002 case 17 => 0x8000000000000080 case 18 => 0x000000000000800a case 19 => 0x800000008000000a
    case 20 => 0x8000000080008081 case 21 => 0x8000000000008080 case 22 => 0x0000000080000001 case 23 => 0x8000000080008008
  }

  /** `keccakRho[t]`: the rotation applied at step t of the combined rho/pi walk. */
  function KeccakRho(t: nat): nat
    requires t < 24
  {
    match t
    case 0 => 1 case 1 => 3 case 2 => 6 case 3 => 10
    case 4 => 15 case 5 => 21 case 6 => 28 case 7 => 36
    case 8 => 45 case 9 => 55 case 10 => 2 case 11 => 14
    case 12 => 27 case 13 => 41 case 14 => 56 case 15 => 8
    case 16 => 25 case 17 => 43 case 18 => 62 case 19 => 18
    case 20 => 39 case 21 => 61 case 22 => 20 case 23 => 44
  }

  /** `keccakPi[t]`: the lane written at step t of the combined rho/pi walk. */
  function KeccakPi(t: nat): nat
    requires t < 24
  {
    match t
    case 0 => 10 case 1 => 7 case 2 => 11 case 3 => 17
    case 4 => 18 case 5 => 3 case 6 => 5 case 7 => 16
    case 8 => 8 case 9 => 21 case 10 => 24 case 11 => 4
    case 12 => 15 case 13 => 23 case 14 => 19 case 15 => 13
    case 16 => 12 case 17 => 2 case 18 => 20 case 19 => 14
    case 20 => 22 case 21 => 9 case 22 => 6 case 23 => 1
  }

  /** The step of the walk that writes lane i (the inverse of `KeccakPi`). */
  function PiStep(i: nat): (t: nat)
    requires 1 <= i < 25
    ensures t < 24 && KeccakPi(t) == i
  {
    match i
    case 1 => 23 case 2 => 17 case 3 => 5 case 4 => 11
    case 5 => 6 case 6 => 22 case 7 => 1 case 8 => 8
    case 9 => 21 case 10 => 0 case 11 => 2 case 12 => 16
    case 13 => 15 case 14 => 19 case 15 => 12 case 16 => 7
    case 17 => 3 case 18 => 4 case 19 => 14 case 20 => 18
    case 21 => 9 case 22 => 20 case 23 => 13 case 24 => 10
  }

  /** n mod 5, for the small sums the pi mapping needs. */
  function Mod5(n: nat): nat
    requires n < 25
  {
    if n < 5 then n else if n < 10 then n - 5 else if n < 15 then n - 10 else if n < 20 then n - 15 else n - 20
  }

  /** FIPS 202 section 3.2.3: lane (x, y) of pi's output is lane ((x + 3y) mod 5, x) of its input. */
  function PiSource(i: nat): (j: nat)
    requires i < 25
    ensures j < 25
  {
    var x, y := i % 5, i / 5;
    Mod5(x + 3 * y) + 5 * x
  }

  /** FIPS 202 Table 2: the rho offset of lane index x + 5y. */
  function FipsRhoOffset(i: nat): nat
    requires i < 25
  {
    match i
    case 0 => 0 case 1 => 1 case 2 => 62 case 3 => 28
    case 4 => 27 case 5 => 36 case 6 => 44 case 7 => 6
    case 8 => 55 case 9 => 20 case 10 => 3 case 11 => 10
    case 12 => 43 case 13 => 25 case 14 => 39 case 15 => 41
    case 16 => 45 case 17 => 15 case 18 => 21 case 19 => 8
    case 20 => 18 case 21 => 2 case 22 => 61 case 23 => 56
    case 24 => 14
  }

  /**
   * The lane that step t of the trace tool's rho/pi loop moves: the one the
   * previous step overwrote, or lane 1 (which is `keccakPi[23]`) at step 0.
   */
  function WalkSource(t: nat): nat
    requires t < 24
  {
    if t == 0 then KeccakPi(23) else KeccakPi(t - 1)
  }

  /** Every rotation amount in `keccakRho` is in 1..63, so `x >> (64 - s)` is defined. */
  lemma RhoAmountsInRange(t: nat)
    requires t < 24
    ensures 0 < KeccakRho(t) < 64
  {
  }

  /** `PiStep` is a left inverse of `KeccakPi`: the walk writes 24 distinct lanes, none of them lane 0. */
  lemma PiStepInvertsPi(t: nat)
    requires t < 24
    ensures 1 <= KeccakPi(t) < 25 && PiStep(KeccakPi(t)) == t
  {
  }

  /** The lane read at step t is FIPS 202 pi's source of the lane written at step t. */
  lemma WalkFollowsPi(t: nat)
    requires t < 24
    ensures 1 <= WalkSource(t) < 25
    ensures PiSource(KeccakPi(t)) == WalkSource(t)
  {
  }

  /** The rotation at step t is FIPS 202's rho offset (Table 2) of the lane read at step t. */
  lemma WalkFollowsRho(t: nat)
    requires t < 24
    ensures 1 <= WalkSource(t) < 25
    ensures KeccakRho(t) == FipsRhoOffset(WalkSource(t))
  {
  }

  /** The rotation at step t is the offset (t + 1)(t + 2)/2 mod 64 of Algorithm 2 of FIPS 202. */
  lemma RhoFollowsAlgorithm2(t: nat)
    requires t < 24
    ensures KeccakRho(t) == (t + 1) * (t + 2) / 2 % 64
  {
  }

  /**
   * Lane i (1..24) of the combined rho/pi output is lane `PiSource(i)` of the
   * input rotated by that lane's FIPS 202 offset: the walk and FIPS 202 agree.
   */
  lemma WalkWritesFipsLane(i: nat)
    requires 1 <= i < 25
    ensures WalkSource(PiStep(i)) == PiSource(i)
    ensures KeccakRho(PiStep(i)) == FipsRhoOffset(PiSource(i))
  {
    var t := PiStep(i);
    WalkFollowsPi(t);
    WalkFollowsRho(t);
  }

  /**
   * `keccakPi` lists every lane 1..24 exactly once: its 24 entries are distinct
   * lanes in 1..24 (and `PiStep` names the step for each of them).
   */
  lemma KeccakPiIsPermutation()
    ensures forall t: nat | t < 24 :: 1 <= KeccakPi(t) < 25
    ensures forall s: nat, t: nat | s < 24 && t < 24 && KeccakPi(s) == KeccakPi(t) :: s == t
  {
    forall t: nat | t < 24
      ensures 1 <= KeccakPi(t) < 25
    {
      PiStepInvertsPi(t);
    }
    forall s: nat, t: nat | s < 24 && t < 24 && KeccakPi(s) == KeccakPi(t)
      ensures s == t
    {
      PiStepInvertsPi(s);
      PiStepInvertsPi(t);
    }
  }

  /** The step after step s of the walk (the walk is a cycle of length 24). */
  function NextStep(s: nat): (t: nat)
    requires s < 24
    ensures t < 24 && WalkSource(t) == KeccakPi(s)
  {
    if s == 23 then 0 else s + 1
  }

  /**
   * Where FIPS 202 pi sends lane j: the lane written by the walk step after
   * the one that overwrote j (lane 0 stays put).
   */
  function PiDest(j: nat): (i: nat)
    requires j < 25
    ensures i < 25 && PiSource(i) == j
  {
    if j == 0 then 0
    else
      var t := NextStep(PiStep(j));
      WalkFollowsPi(t);
      KeccakPi(t)
  }

  /** `PiDest` undoes `PiSource`, so FIPS 202 pi is a permutation of the 25 lanes. */
  lemma {:induction false} PiDestInvertsSource(i: nat)
    requires i < 25
    ensures PiDest(PiSource(i)) == i
  {
    if i != 0 {
      var t := PiStep(i);
      WalkWritesFipsLane(i);
      var u := if t == 0 then 23 else t - 1;
      assert PiSource(i) == KeccakPi(u);
      PiStepInvertsPi(u);
      assert NextStep(u) == t;
    }
  }

  /*
   * The round constants from their definition: FIPS 202 Algorithms 5 and 6.
   */

  /** One step of the 8-bit LFSR of Algorithm 5 (bit k of the byte is R[k]). */
  function LfsrStep(r: bv8): bv8
  {
    if r & 0x80 == 0 then r << 1 else (r << 1) ^ 0x71
  }

  /** The LFSR after n steps from R = 10000000, i.e. R[0] = 1. */
  function LfsrState(n: nat): bv8
  {
    if n == 0 then 1 else LfsrStep(LfsrState(n - 1))
  }

  /** rc(t) of Algorithm 5, as a one-bit lane. */
  function Rc(t: nat): bv64
  {
    (LfsrState(t % 255) & 1) as bv64
  }

  /** The RC word whose bit 2^j - 1 is rc(n + j), for j = 0..6. */
  function RcWord(n: nat): bv64
  {
    Rc(n) | (Rc(n + 1) << 1) | (Rc(n + 2) << 3) | (Rc(n + 3) << 7)
    | (Rc(n + 4) << 15) | (Rc(n + 5) << 31) | (Rc(n + 6) << 63)
  }

  /** RC for round ir (Algorithm 6): bit 2^j - 1 of RC is rc(j + 7 ir). */
  function RoundConstant(ir: nat): bv64
  {
    RcWord(7 * ir)
  }

  /** Seven LFSR steps: the distance between the first rc bits of two consecutive rounds. */
  function Step7(r: bv8): bv8
  {
    LfsrStep(LfsrStep(LfsrStep(LfsrStep(LfsrStep(LfsrStep(LfsrStep(r)))))))
  }

  /** RC assembled from the LFSR state at the start of a round. */
  function RcFrom(r0: bv8): bv64
  {
    var r1 := LfsrStep(r0); var r2 := LfsrStep(r1); var r3 := LfsrStep(r2);
    var r4 := LfsrStep(r3); var r5 := LfsrStep(r4); var r6 := LfsrStep(r5);
    ((r0 & 1) as bv64) | (((r1 & 1) as bv64) << 1) | (((r2 & 1) as bv64) << 3) | (((r3 & 1) as bv64) << 7)
    | (((r4 & 1) as bv64) << 15) | (((r5 & 1) as bv64) << 31) | (((r6 & 1) as bv64) << 63)
  }

  /** The LFSR state at step 7 ir, precomputed per round. */
  function LfsrAtRound(ir: nat): bv8
    requires ir < 24
  {
    match ir
    case 0 => 0x01 case 1 => 0x80 case 2 => 0xd8 case 3 => 0x1a case 4 => 0xdf case 5 => 0x09
    case 6 => 0x35 case 7 => 0x4f case 8 => 0xca case 9 => 0x70 case 10 => 0x41 case 11 => 0xec
    case 12 => 0xd5 case 13 => 0xcd case 14 => 0x63 case 15 => 0xab case 16 => 0xaa case 17 => 0x2a
    case 18 => 0xf2 case 19 => 0xe8 case 20 => 0x37 case 21 => 0x3e case 22 => 0x0b case 23 => 0x44
  }

  lemma LfsrTableStepLow(ir: nat)
    requires ir < 12
    ensures Step7(LfsrAtRound(ir)) == LfsrAtRound(ir + 1)
  {
  }

  lemma LfsrTableStepHigh(ir: nat)
    requires 12 <= ir < 23
    ensures Step7(LfsrAtRound(ir)) == LfsrAtRound(ir + 1)
  {
  }

  /** Consecutive entries of the precomputed table are seven LFSR steps apart. */
  lemma LfsrTableStep(ir: nat)
    requires ir < 23
    ensures Step7(LfsrAtRound(ir)) == LfsrAtRound(ir + 1)
  {
    if ir < 12 {
      LfsrTableStepLow(ir);
    } else {
      LfsrTableStepHigh(ir);
    }
  }

  lemma LfsrTableRcLow(ir: nat)
    requires ir < 12
    ensures RcFrom(LfsrAtRound(ir)) == KeccakRC(ir)
  {
  }

  lemma LfsrTableRcHigh(ir: nat)
    requires 12 <= ir < 24
    ensures RcFrom(LfsrAtRound(ir)) == KeccakRC(ir)
  {
  }

  lemma {:induction false} LfsrSeven(n: nat)
    ensures LfsrState(n + 7) == Step7(LfsrState(n))
  {
    assert LfsrState(n + 1) == LfsrStep(LfsrState(n));
    assert LfsrState(n + 2) == LfsrStep(LfsrState(n + 1));
    assert LfsrState(n + 3) == LfsrStep(LfsrState(n + 2));
    assert LfsrState(n + 4) == LfsrStep(LfsrState(n + 3));
    assert LfsrState(n + 5) == LfsrStep(LfsrState(n + 4));
    assert LfsrState(n + 6) == LfsrStep(LfsrState(n + 5));
  }

  /** Round ir starts seven LFSR steps after round ir - 1. */
  lemma LfsrRoundStep(ir: nat)
    requires 0 < ir
    ensures LfsrState(7 * ir) == Step7(LfsrState(7 * (ir - 1)))
  {
    var n := 7 * (ir - 1);
    LfsrSeven(n);
    assert n + 7 == 7 * ir;
  }

  /** If the table agrees with the LFSR at round ir - 1, it agrees at round ir. */
  lemma LfsrTableFollows(ir: nat)
    requires 0 < ir < 24
    requires LfsrState(7 * (ir - 1)) == LfsrAtRound(ir - 1)
    ensures LfsrState(7 * ir) == LfsrAtRound(ir)
  {
    LfsrRoundStep(ir);
    LfsrTableStep(ir - 1);
  }

  /** The precomputed table is the LFSR run of Algorithm 5. */
  lemma {:induction false} LfsrAtRoundIsLfsrState(ir: nat)
    requires ir < 24
    ensures LfsrState(7 * ir) == LfsrAtRound(ir)
  {
    if ir > 0 {
      LfsrAtRoundIsLfsrState(ir - 1);
      LfsrTableFollows(ir);
    }
  }

  /** Below 255 the `t mod 255` of rc(t) changes nothing. */
  lemma RcNoWrap(t: nat)
    requires t < 255
    ensures Rc(t) == (LfsrState(t) & 1) as bv64
  {
    assert t % 255 == t;
  }

  /** Seven consecutive rc bits starting below 249 are read off seven consecutive LFSR states. */
  lemma {:induction false} RcFromLfsr(n: nat)
    requires n + 6 < 255
    ensures RcWord(n) == RcFrom(LfsrState(n))
  {
    RcNoWrap(n); RcNoWrap(n + 1); RcNoWrap(n + 2); RcNoWrap(n + 3);
    RcNoWrap(n + 4); RcNoWrap(n + 5); RcNoWrap(n + 6);
    assert LfsrState(n + 1) == LfsrStep(LfsrState(n));
    assert LfsrState(n + 2) == LfsrStep(LfsrState(n + 1));
    assert LfsrState(n + 3) == LfsrStep(LfsrState(n + 2));
    assert LfsrState(n + 4) == LfsrStep(LfsrState(n + 3));
    assert LfsrState(n + 5) == LfsrStep(LfsrState(n + 4));
    assert LfsrState(n + 6) == LfsrStep(LfsrState(n + 5));
  }

  /** Every entry of `keccakRC` is the round constant FIPS 202 Algorithm 6 defines for its round. */
  lemma {:induction false} KeccakRCMatchesFips202(ir: nat)
    requires ir < 24
    ensures KeccakRC(ir) == RoundConstant(ir)
  {
    RcFromLfsr(7 * ir);
    LfsrAtRoundIsLfsrState(ir);
    if ir < 12 {
      LfsrTableRcLow(ir);
    } else {
      LfsrTableRcHigh(ir);
    }
  }
}
