/**
 * The trace tool's `keccakf` (contrib/rinhash_trace.cpp) loop by loop, with
 * the 25-lane array `st` and the 5-lane scratch array `b` as sequences, over
 * any lane type. Each loop nest is proved to compute the FIPS 202 step
 * mapping of `Keccak`, through a recursive function that describes the array
 * after the first n iterations.
 */
module KeccakLoops {
  import opened KeccakTables
  import opened Keccak

  // ---- theta ----

  /** The first theta loop: `b[x]` is the parity of column x. */
  method ColumnParities<L>(ops: LaneOps<L>, st: seq<L>) returns (b: seq<L>)
    requires |st| == 25
    ensures |b| == 5
    ensures forall x | 0 <= x < 5 :: b[x] == ColumnParity(ops, st, x)
  {
    b := st[..5];  // `b`'s initial contents are never read
    for x := 0 to 5
      invariant |b| == 5
      invariant forall k | 0 <= k < x :: b[k] == ColumnParity(ops, st, k)
    {
      b := b[x := ops.xor(ops.xor(ops.xor(ops.xor(st[x], st[x + 5]), st[x + 10]), st[x + 15]), st[x + 20])];
    }
  }

  /**
   * The array after theta's second loop nest has finished columns 0..x-1 and
   * rows 0..r-1 of column x (x outer, y = 5r inner).
   */
  function ThetaPartial<L>(ops: LaneOps<L>, st0: seq<L>, x: nat, r: nat): (st: seq<L>)
    requires |st0| == 25 && x < 5 && r <= 5
    ensures |st| == 25
    decreases x, r
  {
    if r == 0 then (if x == 0 then st0 else ThetaPartial(ops, st0, x - 1, 5))
    else
      var p := ThetaPartial(ops, st0, x, r - 1);
      var i := x + 5 * (r - 1);
      p[i := ops.xor(p[i], ThetaEffect(ops, st0, x))]
  }

  /** Lane (c, w) of theta's output. */
  lemma ThetaLaneAt<L>(ops: LaneOps<L>, st0: seq<L>, c: nat, w: nat)
    requires |st0| == 25 && c < 5 && w < 5
    ensures Theta(ops, st0)[c + 5 * w] == ops.xor(st0[c + 5 * w], ThetaEffect(ops, st0, c))
  {
    assert (c + 5 * w) % 5 == c;
  }

  /** Lane (c, w) partway through theta's loop nest, before its turn: still the input lane. */
  lemma {:induction false} ThetaPendingLane<L>(ops: LaneOps<L>, st0: seq<L>, x: nat, r: nat, c: nat, w: nat)
    requires |st0| == 25 && x < 5 && r <= 5 && c < 5 && w < 5
    requires x < c || (c == x && r <= w)
    ensures ThetaPartial(ops, st0, x, r)[c + 5 * w] == st0[c + 5 * w]
    decreases x, r
  {
    if r == 0 {
      if x > 0 {
        ThetaPendingLane(ops, st0, x - 1, 5, c, w);
      }
    } else {
      ThetaPendingLane(ops, st0, x, r - 1, c, w);
    }
  }

  /** Lane (c, w) partway through theta's loop nest, after its turn: D[c] has been XORed in. */
  lemma {:induction false} ThetaPartialLane<L>(ops: LaneOps<L>, st0: seq<L>, x: nat, r: nat, c: nat, w: nat)
    requires |st0| == 25 && x < 5 && r <= 5 && c < 5 && w < 5
    requires c < x || (c == x && w < r)
    ensures ThetaPartial(ops, st0, x, r)[c + 5 * w] == ops.xor(st0[c + 5 * w], ThetaEffect(ops, st0, c))
    decreases x, r
  {
    if r == 0 {
      ThetaPartialLane(ops, st0, x - 1, 5, c, w);
    } else if c == x && w == r - 1 {
      ThetaPendingLane(ops, st0, x, r - 1, c, w);
    } else {
      ThetaPartialLane(ops, st0, x, r - 1, c, w);
    }
  }

  /** The column and row of lane i. */
  lemma LaneCoordinates(i: nat) returns (c: nat, w: nat)
    requires i < 25
    ensures c < 5 && w < 5 && i == c + 5 * w
  {
    c, w := i % 5, i / 5;
  }

  /** Once every column is done, lane i is theta's. */
  lemma ThetaDoneLane<L>(ops: LaneOps<L>, st0: seq<L>, i: nat)
    requires |st0| == 25 && i < 25
    ensures ThetaPartial(ops, st0, 4, 5)[i] == Theta(ops, st0)[i]
  {
    var c, w := LaneCoordinates(i);
    ThetaPartialLane(ops, st0, 4, 5, c, w);
    ThetaLaneAt(ops, st0, c, w);
  }

  /** Once every column is done, the array is theta's output. */
  lemma ThetaPartialComplete<L>(ops: LaneOps<L>, st0: seq<L>)
    requires |st0| == 25
    ensures ThetaPartial(ops, st0, 4, 5) == Theta(ops, st0)
  {
    forall i | 0 <= i < 25
      ensures ThetaPartial(ops, st0, 4, 5)[i] == Theta(ops, st0)[i]
    {
      ThetaDoneLane(ops, st0, i);
    }
  }

  /** The inner theta loop: `st[y + x] ^= t` for y = 0, 5, .., 20. */
  method ThetaColumn<L>(ops: LaneOps<L>, st0: seq<L>, st1: seq<L>, x: nat, t: L) returns (st: seq<L>)
    requires |st0| == 25 && x < 5
    requires st1 == ThetaPartial(ops, st0, x, 0) && t == ThetaEffect(ops, st0, x)
    ensures st == ThetaPartial(ops, st0, x, 5)
  {
    st := st1;
    var y := 0;
    ghost var r := 0;
    while y < 25
      invariant y == 5 * r && r <= 5
      invariant st == ThetaPartial(ops, st0, x, r)
    {
      st := st[y + x := ops.xor(st[y + x], t)];
      y := y + 5;
      r := r + 1;
    }
  }

  /** The theta loops: column parities into `b`, then D[x] XORed into each lane of column x. */
  method ThetaLoop<L>(ops: LaneOps<L>, st0: seq<L>) returns (st: seq<L>)
    requires |st0| == 25
    ensures st == Theta(ops, st0)
  {
    var b := ColumnParities(ops, st0);
    st := st0;
    for x := 0 to 5
      invariant x < 5 ==> st == ThetaPartial(ops, st0, x, 0)
      invariant x == 5 ==> st == ThetaPartial(ops, st0, 4, 5)
    {
      assert (x + 4) % 5 == (x - 1) % 5;
      var t := ops.xor(b[(x + 4) % 5], ops.rotl(b[(x + 1) % 5], 1));
      st := ThetaColumn(ops, st0, st, x, t);
    }
    ThetaPartialComplete(ops, st0);
  }

  // ---- rho and pi ----

  /** The array after the first x steps of the rho/pi walk. */
  function WalkState<L>(ops: LaneOps<L>, st0: seq<L>, x: nat): (st: seq<L>)
    requires |st0| == 25 && x <= 24
    ensures |st| == 25
  {
    if x == 0 then st0
    else
      var p := WalkState(ops, st0, x - 1);
      PiStepInvertsPi(x - 1);
      p[KeccakPi(x - 1) := ops.rotl(st0[WalkSource(x - 1)], KeccakRho(x - 1))]
  }

  /** A lane the walk has not yet reached still holds its input value. */
  lemma {:induction false} WalkUnwritten<L>(ops: LaneOps<L>, st0: seq<L>, x: nat, k: nat)
    requires |st0| == 25 && x <= k < 24
    ensures KeccakPi(k) < 25 && WalkState(ops, st0, x)[KeccakPi(k)] == st0[KeccakPi(k)]
  {
    PiStepInvertsPi(k);
    if x > 0 {
      WalkUnwritten(ops, st0, x - 1, k);
      PiStepInvertsPi(x - 1);
    }
  }

  /** A lane written at step k holds the rotated lane the walk carried there. */
  lemma {:induction false} WalkWritten<L>(ops: LaneOps<L>, st0: seq<L>, x: nat, k: nat)
    requires |st0| == 25 && k < x <= 24
    ensures KeccakPi(k) < 25 && WalkSource(k) < 25
    ensures WalkState(ops, st0, x)[KeccakPi(k)] == ops.rotl(st0[WalkSource(k)], KeccakRho(k))
  {
    PiStepInvertsPi(k);
    WalkFollowsPi(k);
    if k < x - 1 {
      WalkWritten(ops, st0, x - 1, k);
      PiStepInvertsPi(x - 1);
    }
  }

  /** The walk never touches lane 0. */
  lemma {:induction false} WalkKeepsLaneZero<L>(ops: LaneOps<L>, st0: seq<L>, x: nat)
    requires |st0| == 25 && x <= 24
    ensures WalkState(ops, st0, x)[0] == st0[0]
  {
    if x > 0 {
      WalkKeepsLaneZero(ops, st0, x - 1);
      PiStepInvertsPi(x - 1);
    }
  }

  /** The whole walk is FIPS 202 rho followed by pi. */
  lemma WalkIsRhoPi<L>(ops: LaneOps<L>, st0: seq<L>)
    requires |st0| == 25
    ensures WalkState(ops, st0, 24) == Pi(ops, Rho(ops, st0))
  {
    forall j | 0 <= j < 25
      ensures WalkState(ops, st0, 24)[j] == Pi(ops, Rho(ops, st0))[j]
    {
      if j == 0 {
        WalkKeepsLaneZero(ops, st0, 24);
      } else {
        var k := PiStep(j);
        WalkWritten(ops, st0, 24, k);
        WalkWritesFipsLane(j);
        WalkFollowsPi(k);
      }
    }
  }

  /**
   * The combined rho and pi loop: starting from lane 1, each step saves the
   * lane it is about to overwrite and writes there the previously saved lane,
   * rotated by `keccakRho[x]`.
   */
  method RhoPiLoop<L>(ops: LaneOps<L>, st0: seq<L>) returns (st: seq<L>)
    requires |st0| == 25
    ensures st == Pi(ops, Rho(ops, st0))
  {
    st := st0;
    var t := st[1];
    for x := 0 to 24
      invariant st == WalkState(ops, st0, x)
      invariant x < 24 ==> t == st0[WalkSource(x)]
    {
      WalkUnwritten(ops, st0, x, x);
      var b0 := st[KeccakPi(x)];
      st := st[KeccakPi(x) := ops.rotl(t, KeccakRho(x))];
      t := b0;
    }
    WalkIsRhoPi(ops, st0);
  }

  // ---- chi ----

  /** The array after chi's loops have rewritten lanes 0..n-1. */
  function ChiPartial<L>(ops: LaneOps<L>, st0: seq<L>, n: nat): (st: seq<L>)
    requires |st0| == 25 && n <= 25
    ensures |st| == 25
  {
    if n == 0 then st0 else ChiPartial(ops, st0, n - 1)[n - 1 := Chi(ops, st0)[n - 1]]
  }

  /** Lane i partway through chi's loops: rewritten once its turn has come. */
  lemma {:induction false} ChiPartialLane<L>(ops: LaneOps<L>, st0: seq<L>, n: nat, i: nat)
    requires |st0| == 25 && n <= 25 && i < 25
    ensures i < n ==> ChiPartial(ops, st0, n)[i] == Chi(ops, st0)[i]
    ensures n <= i ==> ChiPartial(ops, st0, n)[i] == st0[i]
  {
    if n > 0 {
      ChiPartialLane(ops, st0, n - 1, i);
    }
  }

  /** Lane x of row r, and its neighbours along the row. */
  lemma RowOf(r: nat, x: nat)
    requires r < 5 && x < 5
    ensures RowStart(5 * r + x) == 5 * r
    ensures RowNeighbour(5 * r + x, 1) == 5 * r + (x + 1) % 5
    ensures RowNeighbour(5 * r + x, 2) == 5 * r + (x + 2) % 5
  {
  }

  /** Chi's lane x of row r, computed from a copy `b` of the row's input lanes. */
  lemma ChiLaneFromRow<L>(ops: LaneOps<L>, st0: seq<L>, r: nat, x: nat, b: seq<L>)
    requires |st0| == 25 && r < 5 && x < 5 && |b| == 5
    requires forall k | 0 <= k < 5 :: b[k] == st0[5 * r + k]
    ensures Chi(ops, st0)[5 * r + x] == ops.xor(b[x], ops.and(ops.not(b[(x + 1) % 5]), b[(x + 2) % 5]))
  {
    RowOf(r, x);
  }

  /** Chi's first inner loop: row y = 5r, not yet rewritten, copied into `b`. */
  method ChiCopyRow<L>(ops: LaneOps<L>, st0: seq<L>, st: seq<L>, y: nat, ghost r: nat) returns (b: seq<L>)
    requires |st0| == 25 && y == 5 * r && r < 5
    requires st == ChiPartial(ops, st0, y)
    ensures |b| == 5 && forall k | 0 <= k < 5 :: b[k] == st0[y + k]
  {
    b := st[..5];  // `b`'s initial contents are never read
    for x := 0 to 5
      invariant |b| == 5
      invariant forall k | 0 <= k < x :: b[k] == st0[y + k]
    {
      ChiPartialLane(ops, st0, y, y + x);
      b := b[x := st[y + x]];
    }
  }

  /** One pass of chi's outer loop: row y = 5r copied into `b`, then rewritten from the copy. */
  method ChiRowLoop<L>(ops: LaneOps<L>, st0: seq<L>, st1: seq<L>, y: nat, ghost r: nat) returns (st: seq<L>)
    requires |st0| == 25 && y == 5 * r && r < 5
    requires st1 == ChiPartial(ops, st0, y)
    ensures st == ChiPartial(ops, st0, y + 5)
  {
    var b := ChiCopyRow(ops, st0, st1, y, r);
    st := st1;
    for x := 0 to 5
      invariant st == ChiPartial(ops, st0, y + x)
    {
      ChiLaneFromRow(ops, st0, r, x, b);
      st := st[y + x := ops.xor(b[x], ops.and(ops.not(b[(x + 1) % 5]), b[(x + 2) % 5]))];
    }
  }

  /** The chi loops, one row at a time. */
  method ChiLoop<L>(ops: LaneOps<L>, st0: seq<L>) returns (st: seq<L>)
    requires |st0| == 25
    ensures st == Chi(ops, st0)
  {
    st := st0;
    var y := 0;
    ghost var r := 0;
    while y < 25
      invariant y == 5 * r && r <= 5
      invariant st == ChiPartial(ops, st0, y)
    {
      st := ChiRowLoop(ops, st0, st, y, r);
      y := y + 5;
      r := r + 1;
    }
    forall i | 0 <= i < 25
      ensures st[i] == Chi(ops, st0)[i]
    {
      ChiPartialLane(ops, st0, 25, i);
    }
  }

  // ---- the rounds ----

  /** `keccakf`: 24 rounds of theta, rho and pi, chi, and iota with `keccakRC[i]`. */
  method KeccakFLoop<L>(ops: LaneOps<L>, st0: seq<L>) returns (st: seq<L>)
    requires |st0| == 25
    ensures st == Rounds(ops, st0, 24)
  {
    st := st0;
    for i := 0 to 24
      invariant st == Rounds(ops, st0, i)
    {
      st := ThetaLoop(ops, st);
      st := RhoPiLoop(ops, st);
      st := ChiLoop(ops, st);
      st := st[0 := ops.xor(st[0], ops.roundConstant(i))];
    }
  }

  /** On `uint64_t` lanes the loops compute Keccak-f[1600]. */
  method KeccakF64(st0: State) returns (st: State)
    ensures st == KeccakF(st0)
  {
    st := KeccakFLoop(Lanes64, st0);
  }
}
