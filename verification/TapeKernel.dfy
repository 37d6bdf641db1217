/** The AVX2 distance kernels. Each lane operation computes its exact result and rounds it once; the
    rounding is a parameter, so the results hold for every rounding mode. */
module TapeKernel {

  const DIM: nat := 128

  /** Rounding to a floating-point format (IEEE 754-2019, section 4.3): it is monotone, it leaves
      representable values - its own results, and zero - alone. */
  ghost predicate IsRounding(rnd: real -> real) {
    && (forall x, y :: x <= y ==> rnd(x) <= rnd(y))
    && (forall x :: rnd(rnd(x)) == rnd(x))
    && rnd(0.0) == 0.0
  }

  /** A query, one stored int8 vector, and its cluster's scale and zero point per dimension. */
  datatype Operands = Operands(query: seq<real>, db: seq<int>, scale: seq<real>, zp: seq<real>)

  predicate Sized(o: Operands) {
    |o.query| == |o.db| == |o.scale| == |o.zp| == DIM
  }

  /** `q - (db - zp) * scale` in one lane. */
  function Diff(rnd: real -> real, o: Operands, d: nat): real
    requires Sized(o) && d < DIM
  {
    rnd(o.query[d] - rnd(rnd(o.db[d] as real - o.zp[d]) * o.scale[d]))
  }

  /** Fused multiply-add (IEEE 754-2019, section 5.4.1): one rounding. */
  function Fma(rnd: real -> real, d: real, acc: real): real { rnd(d * d + acc) }

  /** The lane-wise differences that a kernel squares and sums, for a stored vector ... */
  function Diffs(rnd: real -> real, o: Operands): (ds: seq<real>)
    requires Sized(o)
    ensures |ds| == DIM
  {
    seq(DIM, d requires 0 <= d < DIM => Diff(rnd, o, d))
  }

  /** ... and for a centroid, which is stored as floats. */
  function FloatDiffs(rnd: real -> real, a: seq<real>, b: seq<real>): (ds: seq<real>)
    requires |a| == |b| == DIM
    ensures |ds| == DIM
  {
    seq(DIM, d requires 0 <= d < DIM => rnd(a[d] - b[d]))
  }

  /** Accumulator of lane `l` after `n` chunks of eight dimensions. */
  function Lane(rnd: real -> real, ds: seq<real>, l: nat, n: nat): real
    requires |ds| == DIM && l < 8 && 8 * n <= DIM
  {
    if n == 0 then 0.0 else Fma(rnd, ds[8 * (n - 1) + l], Lane(rnd, ds, l, n - 1))
  }

  function Lanes(rnd: real -> real, ds: seq<real>, n: nat): (v: seq<real>)
    requires |ds| == DIM && 8 * n <= DIM
    ensures |v| == 8
  {
    seq(8, l requires 0 <= l < 8 => Lane(rnd, ds, l, n))
  }

  /** The horizontal sum: the two halves, then adjacent pairs, then the pair of pairs. */
  function Hsum(rnd: real -> real, v: seq<real>): real
    requires |v| == 8
  {
    rnd(rnd(rnd(v[0] + v[4]) + rnd(v[1] + v[5])) + rnd(rnd(v[2] + v[6]) + rnd(v[3] + v[7])))
  }

  /** The distance after the first `n` chunks; 16 chunks are the whole vector. */
  function Distance(rnd: real -> real, o: Operands, n: nat): real
    requires Sized(o) && 8 * n <= DIM
  {
    Hsum(rnd, Lanes(rnd, Diffs(rnd, o), n))
  }

  /** The distance of a query to a centroid. */
  function CentroidDistance(rnd: real -> real, a: seq<real>, b: seq<real>): real
    requires |a| == |b| == DIM
  {
    Hsum(rnd, Lanes(rnd, FloatDiffs(rnd, a, b), 16))
  }

  /** The kernel loop: eight dimensions at a time into eight accumulators. `dims` is 128 for the full
      distance and 16 for the partial one. */
  method L2(rnd: real -> real, o: Operands, dims: nat) returns (dist: real)
    requires Sized(o) && dims <= DIM && dims % 8 == 0
    ensures dist == Distance(rnd, o, dims / 8)
  {
    hide Lane, Fma, Diff, Hsum;
    ghost var ds := Diffs(rnd, o);
    var sum := seq(8, _ => 0.0);
    NoLanes(rnd, ds);
    var i := 0;
    while i < dims
      invariant 0 <= i <= dims && i % 8 == 0
      invariant sum == Lanes(rnd, ds, i / 8)
    {
      LanesStep(rnd, ds, i / 8);
      sum := AddChunk(rnd, seq(8, l requires 0 <= l < 8 => Diff(rnd, o, i + l)), sum);
      assert sum == AddChunk(rnd, ds[i..i + 8], Lanes(rnd, ds, i / 8));
      i := i + 8;
    }
    dist := Hsum(rnd, sum);
  }

  /** The same loop over two float vectors. */
  method FloatL2(rnd: real -> real, a: seq<real>, b: seq<real>) returns (dist: real)
    requires |a| == |b| == DIM
    ensures dist == CentroidDistance(rnd, a, b)
  {
    hide Lane, Fma, Hsum;
    ghost var ds := FloatDiffs(rnd, a, b);
    var sum := seq(8, _ => 0.0);
    NoLanes(rnd, ds);
    var i := 0;
    while i < DIM
      invariant 0 <= i <= DIM && i % 8 == 0
      invariant sum == Lanes(rnd, ds, i / 8)
    {
      LanesStep(rnd, ds, i / 8);
      sum := AddChunk(rnd, seq(8, l requires 0 <= l < 8 => rnd(a[i + l] - b[i + l])), sum);
      assert sum == AddChunk(rnd, ds[i..i + 8], Lanes(rnd, ds, i / 8));
      i := i + 8;
    }
    dist := Hsum(rnd, sum);
  }

  /** One iteration: eight differences, one per lane. */
  function AddChunk(rnd: real -> real, chunk: seq<real>, sum: seq<real>): seq<real>
    requires |chunk| == |sum| == 8
  {
    seq(8, l requires 0 <= l < 8 => Fma(rnd, chunk[l], sum[l]))
  }

  lemma NoLanes(rnd: real -> real, ds: seq<real>)
    requires |ds| == DIM
    ensures Lanes(rnd, ds, 0) == seq(8, _ => 0.0)
  {
  }

  lemma LanesStep(rnd: real -> real, ds: seq<real>, n: nat)
    requires |ds| == DIM && 8 * n + 8 <= DIM
    ensures Lanes(rnd, ds, n + 1) == AddChunk(rnd, ds[8 * n..8 * n + 8], Lanes(rnd, ds, n))
  {
    hide Fma;
  }

  lemma SumRounds(rnd: real -> real, a: real, b: real, c: real, d: real)
    requires IsRounding(rnd) && a <= c && b <= d
    ensures rnd(a + b) <= rnd(c + d)
  {
  }

  /** Adding a square never lowers an accumulator that is itself a rounded value. */
  lemma FmaGrows(rnd: real -> real, d: real, acc: real)
    requires IsRounding(rnd) && rnd(acc) == acc
    ensures acc <= Fma(rnd, d, acc) && rnd(Fma(rnd, d, acc)) == Fma(rnd, d, acc)
  {
    assert d * d >= 0.0;
    assert acc <= d * d + acc;
    assert rnd(acc) <= rnd(d * d + acc);
  }

  lemma {:induction false} LaneGrows(rnd: real -> real, ds: seq<real>, l: nat, n: nat, m: nat)
    requires IsRounding(rnd) && |ds| == DIM && l < 8 && n <= m && 8 * m <= DIM
    ensures Lane(rnd, ds, l, n) <= Lane(rnd, ds, l, m)
    ensures rnd(Lane(rnd, ds, l, m)) == Lane(rnd, ds, l, m)
    decreases m
  {
    if m == 0 {
      assert rnd(0.0) == 0.0;
    }
    hide Fma, IsRounding;
    if m > 0 {
      LaneGrows(rnd, ds, l, if n < m then n else m - 1, m - 1);
      FmaGrows(rnd, ds[8 * (m - 1) + l], Lane(rnd, ds, l, m - 1));
    }
  }

  lemma HsumMonotone(rnd: real -> real, v: seq<real>, w: seq<real>)
    requires IsRounding(rnd) && |v| == |w| == 8
    requires forall l :: 0 <= l < 8 ==> v[l] <= w[l]
    ensures Hsum(rnd, v) <= Hsum(rnd, w)
  {
    SumRounds(rnd, v[0], v[4], w[0], w[4]);
    SumRounds(rnd, v[1], v[5], w[1], w[5]);
    SumRounds(rnd, v[2], v[6], w[2], w[6]);
    SumRounds(rnd, v[3], v[7], w[3], w[7]);
    SumRounds(rnd, rnd(v[0] + v[4]), rnd(v[1] + v[5]), rnd(w[0] + w[4]), rnd(w[1] + w[5]));
    SumRounds(rnd, rnd(v[2] + v[6]), rnd(v[3] + v[7]), rnd(w[2] + w[6]), rnd(w[3] + w[7]));
    SumRounds(rnd, rnd(rnd(v[0] + v[4]) + rnd(v[1] + v[5])), rnd(rnd(v[2] + v[6]) + rnd(v[3] + v[7])),
              rnd(rnd(w[0] + w[4]) + rnd(w[1] + w[5])), rnd(rnd(w[2] + w[6]) + rnd(w[3] + w[7])));
  }

  /** The partial distance over the first chunks is a lower bound of the full one, rounding included. */
  lemma PartialIsLowerBound(rnd: real -> real, o: Operands, n: nat, m: nat)
    requires IsRounding(rnd) && Sized(o) && n <= m && 8 * m <= DIM
    ensures Distance(rnd, o, n) <= Distance(rnd, o, m)
  {
    hide Diffs;
    var ds := Diffs(rnd, o);
    forall l: nat | l < 8
      ensures Lanes(rnd, ds, n)[l] <= Lanes(rnd, ds, m)[l]
    {
      LaneGrows(rnd, ds, l, n, m);
    }
    HsumMonotone(rnd, Lanes(rnd, ds, n), Lanes(rnd, ds, m));
  }

  // ---------------------------------------------------------------- exact arithmetic

  function Exact(x: real): real { x }

  function SqDiff(a: real, b: real): real { (a - b) * (a - b) }

  /** The plain squared distance of two vectors over their first `n` dimensions. */
  function TrueDistance(q: seq<real>, x: seq<real>, n: nat): real
    requires n <= |q| && n <= |x|
  {
    if n == 0 then 0.0 else TrueDistance(q, x, n - 1) + SqDiff(q[n - 1], x[n - 1])
  }

  /** The coordinate that a stored byte stands for. */
  function Back(o: Operands, d: nat): real
    requires Sized(o) && d < DIM
  {
    (o.db[d] as real - o.zp[d]) * o.scale[d]
  }

  /** The plain squared distance to the coordinates that are stored. */
  function SquaredDistance(o: Operands, d: nat): real
    requires Sized(o) && d <= DIM
  {
    if d == 0 then 0.0 else SquaredDistance(o, d - 1) + SqDiff(o.query[d - 1], Back(o, d - 1))
  }

  function Sq(x: real): real { x * x }

  function SumSquares(ds: seq<real>, n: nat): real
    requires n <= |ds|
  {
    if n == 0 then 0.0 else SumSquares(ds, n - 1) + Sq(ds[n - 1])
  }

  function LaneSum(ds: seq<real>, n: nat): real
    requires |ds| == DIM && 8 * n <= DIM
  {
    var v := Lanes(Exact, ds, n);
    v[0] + v[1] + v[2] + v[3] + v[4] + v[5] + v[6] + v[7]
  }

  lemma {:induction false} LaneSumIsSum(ds: seq<real>, n: nat)
    requires |ds| == DIM && 8 * n <= DIM
    ensures LaneSum(ds, n) == SumSquares(ds, 8 * n)
  {
    hide SumSquares, Lane, Sq, Fma;
    if n == 0 {
      NoChunks(ds);
    } else {
      LaneSumIsSum(ds, n - 1);
      EightMore(ds, 8 * (n - 1));
      LaneStep(ds, 0, n);
      LaneStep(ds, 1, n);
      LaneStep(ds, 2, n);
      LaneStep(ds, 3, n);
      LaneStep(ds, 4, n);
      LaneStep(ds, 5, n);
      LaneStep(ds, 6, n);
      LaneStep(ds, 7, n);
    }
  }

  lemma NoChunks(ds: seq<real>)
    requires |ds| == DIM
    ensures SumSquares(ds, 0) == 0.0 && forall l: nat :: l < 8 ==> Lane(Exact, ds, l, 0) == 0.0
  {
  }

  lemma LaneStep(ds: seq<real>, l: nat, n: nat)
    requires |ds| == DIM && l < 8 && 0 < n && 8 * n <= DIM
    ensures Lane(Exact, ds, l, n) == Sq(ds[8 * (n - 1) + l]) + Lane(Exact, ds, l, n - 1)
  {
  }

  lemma EightMore(ds: seq<real>, k: nat)
    requires |ds| == DIM && k + 8 <= DIM
    ensures SumSquares(ds, k + 8) == SumSquares(ds, k) + Sq(ds[k]) + Sq(ds[k + 1]) + Sq(ds[k + 2]) + Sq(ds[k + 3])
                                     + Sq(ds[k + 4]) + Sq(ds[k + 5]) + Sq(ds[k + 6]) + Sq(ds[k + 7])
  {
    hide Sq;
    assert SumSquares(ds, k + 1) == SumSquares(ds, k) + Sq(ds[k]);
    assert SumSquares(ds, k + 2) == SumSquares(ds, k + 1) + Sq(ds[k + 1]);
    assert SumSquares(ds, k + 3) == SumSquares(ds, k + 2) + Sq(ds[k + 2]);
    assert SumSquares(ds, k + 4) == SumSquares(ds, k + 3) + Sq(ds[k + 3]);
    assert SumSquares(ds, k + 5) == SumSquares(ds, k + 4) + Sq(ds[k + 4]);
    assert SumSquares(ds, k + 6) == SumSquares(ds, k + 5) + Sq(ds[k + 5]);
    assert SumSquares(ds, k + 7) == SumSquares(ds, k + 6) + Sq(ds[k + 6]);
  }

  lemma ExactSum(ds: seq<real>, n: nat)
    requires |ds| == DIM && 8 * n <= DIM
    ensures Hsum(Exact, Lanes(Exact, ds, n)) == SumSquares(ds, 8 * n)
  {
    hide SumSquares, Lane;
    LaneSumIsSum(ds, n);
  }

  lemma {:induction false} SumIsSquared(o: Operands, n: nat)
    requires Sized(o) && n <= DIM
    ensures SumSquares(Diffs(Exact, o), n) == SquaredDistance(o, n)
  {
    if n > 0 {
      SumIsSquared(o, n - 1);
      assert Diffs(Exact, o)[n - 1] == o.query[n - 1] - Back(o, n - 1);
    }
  }

  lemma {:induction false} SumIsTrue(a: seq<real>, b: seq<real>, n: nat)
    requires |a| == |b| == DIM && n <= DIM
    ensures SumSquares(FloatDiffs(Exact, a, b), n) == TrueDistance(a, b, n)
  {
    if n > 0 {
      SumIsTrue(a, b, n - 1);
    }
  }

  /** Without rounding, the lane-parallel kernel computes the plain squared distance. */
  lemma ExactDistance(o: Operands, n: nat)
    requires Sized(o) && 8 * n <= DIM
    ensures IsRounding(Exact)
    ensures Distance(Exact, o, n) == SquaredDistance(o, 8 * n)
  {
    hide SquaredDistance, SumSquares, Lanes, Hsum, Diffs;
    ExactSum(Diffs(Exact, o), n);
    SumIsSquared(o, 8 * n);
  }

  /** ... and so does the one that ranks the centroids. */
  lemma ExactCentroidDistance(a: seq<real>, b: seq<real>)
    requires |a| == |b| == DIM
    ensures CentroidDistance(Exact, a, b) == TrueDistance(a, b, DIM)
  {
    hide TrueDistance, SumSquares, Lanes, Hsum, FloatDiffs;
    ExactSum(FloatDiffs(Exact, a, b), 16);
    SumIsTrue(a, b, DIM);
  }
}
