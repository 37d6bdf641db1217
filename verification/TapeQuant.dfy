/** Per-dimension asymmetric int8 quantization of a cluster, in exact arithmetic, and what it costs
    the distance that the searcher computes. */
module TapeQuant {
  import opened TapeKernel

  /** `np.round`: to the nearest integer, ties to even. */
  function Round(x: real): int {
    var f := x.Floor;
    var rest := x - f as real;
    if rest < 0.5 then f else if rest > 0.5 then f + 1 else if f % 2 == 0 then f else f + 1
  }

  function Abs(x: real): real { if x < 0.0 then -x else x }

  /** The range of a dimension, with a constant dimension given a tiny range of its own. */
  function Range(lo: real, hi: real): real {
    if hi - lo == 0.0 then 0.000000001 else hi - lo
  }

  function Scale(lo: real, hi: real): real { Range(lo, hi) / 255.0 }

  function ZeroPoint(lo: real, hi: real): real
    requires lo <= hi
  {
    -128.0 - lo / Scale(lo, hi)
  }

  function Clip(v: int): int { if v < -128 then -128 else if v > 127 then 127 else v }

  function Steps(x: real, lo: real, hi: real): int
    requires lo <= hi
  {
    Round((x - lo) / Scale(lo, hi))
  }

  function Quantize(x: real, lo: real, hi: real): int
    requires lo <= hi
  {
    Clip(Steps(x, lo, hi) - 128)
  }

  /** What the searcher reads back. */
  function Dequantize(v: int, lo: real, hi: real): real
    requires lo <= hi
  {
    (v as real - ZeroPoint(lo, hi)) * Scale(lo, hi)
  }

  lemma MulMonotone(a: real, b: real, s: real)
    requires s > 0.0
    ensures a > b ==> a * s > b * s
  {
    if a > b { assert (a - b) * s > 0.0; }
  }

  lemma ScalePositive(lo: real, hi: real)
    requires lo <= hi
    ensures Scale(lo, hi) > 0.0 && Scale(lo, hi) * 255.0 == Range(lo, hi) && Range(lo, hi) >= hi - lo
  {
  }

  /** The step count of a value inside the range lies in `[0, 255]` before and after rounding. */
  lemma StepsInRange(x: real, lo: real, hi: real)
    requires lo <= x <= hi
    ensures var t := (x - lo) / Scale(lo, hi);
            && t * Scale(lo, hi) == x - lo && 0.0 <= t <= 255.0
            && 0 <= Steps(x, lo, hi) <= 255
  {
    ScalePositive(lo, hi);
    var s := Scale(lo, hi);
    var t := (x - lo) / s;
    assert t * s == x - lo;
    assert 0.0 * s <= t * s;
    MulMonotone(0.0, t, s);
    assert 255.0 * s == s * 255.0;
    MulMonotone(t, 255.0, s);
  }

  lemma Rounded(x: real)
    ensures Abs(Round(x) as real - x) <= 0.5
  {
  }

  /** For a value of the cluster the int8 clip never acts, the value read back is within half a step
      of it, and a constant dimension is read back exactly. */
  lemma QuantError(x: real, lo: real, hi: real)
    requires lo <= x <= hi
    ensures Quantize(x, lo, hi) == Steps(x, lo, hi) - 128
    ensures Abs(x - Dequantize(Quantize(x, lo, hi), lo, hi)) <= Scale(lo, hi) / 2.0
    ensures lo == hi ==> Dequantize(Quantize(x, lo, hi), lo, hi) == x
  {
    ScalePositive(lo, hi);
    StepsInRange(x, lo, hi);
    var s, t, r := Scale(lo, hi), (x - lo) / Scale(lo, hi), Steps(x, lo, hi) as real;
    Rounded(t);
    ReadBack(Quantize(x, lo, hi), lo, hi);
    assert (t - r) * s == t * s - r * s;
    HalfStep(t - r, s);
    if lo == hi {
      assert t == 0.0;
    }
  }

  lemma HalfStep(e: real, s: real)
    requires Abs(e) <= 0.5 && s > 0.0
    ensures Abs(e * s) <= s / 2.0
  {
    if e < 0.0 {
      assert (e + 0.5) * s >= 0.0;
    } else {
      assert (0.5 - e) * s >= 0.0;
    }
  }

  lemma ReadBack(v: int, lo: real, hi: real)
    requires lo <= hi
    ensures Dequantize(v, lo, hi) == ((v + 128) as real) * Scale(lo, hi) + lo
  {
    ScalePositive(lo, hi);
    var s := Scale(lo, hi);
    var z := lo / s;
    assert z * s == lo;
    assert (v as real - ZeroPoint(lo, hi)) == (v + 128) as real + z;
    assert ((v + 128) as real + z) * s == ((v + 128) as real) * s + z * s;
  }

  /** How far one squared difference may move. */
  function Slack(q: real, x: real, s: real): real { Abs(q - x) * s + s * s / 4.0 }

  /** Replacing `x` by a value `y` within `s / 2` of it moves a squared difference by at most
      `|q - x| * s + s^2 / 4`. */
  lemma SquareMoves(q: real, x: real, y: real, s: real)
    requires s > 0.0 && Abs(x - y) <= s / 2.0
    ensures Abs(SqDiff(q, y) - SqDiff(q, x)) <= Slack(q, x, s)
  {
    var e, d := x - y, q - x;
    assert (q - y) * (q - y) - (q - x) * (q - x) == e * (2.0 * d + e) by {
      assert q - y == d + e;
      assert (d + e) * (d + e) == d * d + 2.0 * (d * e) + e * e;
    }
    assert e * (2.0 * d + e) == 2.0 * (e * d) + e * e;
    ProductBound(e, d, s / 2.0, Abs(d));
    ProductBound(e, e, s / 2.0, s / 2.0);
    assert 2.0 * (s / 2.0 * Abs(d)) == Abs(d) * s;
    assert (s / 2.0) * (s / 2.0) == s * s / 4.0;
    TwoTerms(e * d, e * e, s / 2.0 * Abs(d), (s / 2.0) * (s / 2.0));
  }

  lemma TwoTerms(a: real, b: real, u: real, v: real)
    requires Abs(a) <= u && Abs(b) <= v
    ensures Abs(2.0 * a + b) <= 2.0 * u + v
  {
  }

  lemma ProductBound(a: real, b: real, u: real, v: real)
    requires Abs(a) <= u && Abs(b) <= v
    ensures Abs(a * b) <= u * v
  {
    assert (u - Abs(a)) * v >= 0.0;
    assert Abs(a) * (v - Abs(b)) >= 0.0;
    assert Abs(a * b) == Abs(a) * Abs(b);
  }

  // ---------------------------------------------------------------- a cluster

  /** Smallest and largest value of dimension `d` over the vectors of a cluster. */
  function MinDim(vs: seq<seq<real>>, d: nat): real
    requires vs != [] && forall v :: v in vs ==> d < |v|
  {
    if |vs| == 1 then vs[0][d]
    else
      var m := MinDim(vs[1..], d);
      if vs[0][d] < m then vs[0][d] else m
  }

  function MaxDim(vs: seq<seq<real>>, d: nat): real
    requires vs != [] && forall v :: v in vs ==> d < |v|
  {
    if |vs| == 1 then vs[0][d]
    else
      var m := MaxDim(vs[1..], d);
      if vs[0][d] > m then vs[0][d] else m
  }

  lemma {:induction false} WithinMinMax(vs: seq<seq<real>>, d: nat, k: nat)
    requires vs != [] && (forall v :: v in vs ==> d < |v|) && k < |vs|
    ensures MinDim(vs, d) <= vs[k][d] <= MaxDim(vs, d)
  {
    if |vs| > 1 {
      WithinMinMax(vs[1..], d, if k == 0 then 0 else k - 1);
    }
  }

  /** Both are values of the cluster. */
  lemma {:induction false} MinMaxAttained(vs: seq<seq<real>>, d: nat) returns (i: nat, j: nat)
    requires vs != [] && forall v :: v in vs ==> d < |v|
    ensures i < |vs| && vs[i][d] == MinDim(vs, d)
    ensures j < |vs| && vs[j][d] == MaxDim(vs, d)
  {
    i, j := 0, 0;
    if |vs| > 1 {
      var i', j' := MinMaxAttained(vs[1..], d);
      if !(vs[0][d] < MinDim(vs[1..], d)) { i := i' + 1; }
      if !(vs[0][d] > MaxDim(vs[1..], d)) { j := j' + 1; }
    }
  }

  /** Rounding goes to a nearest integer, and to the even one of two. */
  lemma RoundIsNearestEven(x: real, n: int)
    ensures Abs(Round(x) as real - x) <= Abs(n as real - x)
    ensures Abs(Round(x) as real - x) == 0.5 ==> Round(x) % 2 == 0
  {
    var f := x.Floor;
    if n <= f {
      assert n as real <= f as real;
    } else {
      assert n as real >= (f + 1) as real;
    }
  }

  /** A varying dimension is spread over the whole of int8: its range is 255 steps, its smallest value is
      stored as -128 and its largest as 127. */
  lemma RangeIsCovered(lo: real, hi: real)
    requires lo < hi
    ensures Scale(lo, hi) * 255.0 == hi - lo
    ensures Quantize(lo, lo, hi) == -128 && Quantize(hi, lo, hi) == 127
  {
    var s := Scale(lo, hi);
    ScalePositive(lo, hi);
    assert (lo - lo) / s == 0.0;
    var t := (hi - lo) / s;
    assert t * s == hi - lo;
    MulMonotone(t, 255.0, s);
    MulMonotone(255.0, t, s);
    assert t == 255.0;
    RoundOfInt(0);
    RoundOfInt(255);
  }

  lemma RoundOfInt(n: int)
    ensures Round(n as real) == n
  {
  }
}
