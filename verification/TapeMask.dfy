/** The two 64-bit sign masks of a vector: the writer sums distinct powers of two, the searcher sets
    bits by OR, and the Hamming filter counts the bits of their XOR. Words are naturals below 2^64 and
    the bitwise operators are defined on their binary digits. */
module TapeMask {
  import opened ByteStrings

  function Pow2(n: nat): nat { if n == 0 then 1 else 2 * Pow2(n - 1) }

  function Or(a: nat, b: nat): nat
    decreases a + b
  {
    if a == 0 && b == 0 then 0
    else (if a % 2 == 1 || b % 2 == 1 then 1 else 0) + 2 * Or(a / 2, b / 2)
  }

  function Xor(a: nat, b: nat): nat
    decreases a + b
  {
    if a == 0 && b == 0 then 0
    else (if a % 2 != b % 2 then 1 else 0) + 2 * Xor(a / 2, b / 2)
  }

  function Popcount(a: nat): nat {
    if a == 0 then 0 else a % 2 + Popcount(a / 2)
  }

  /** The writer's mask: the sum, over the dimensions above the mean, of that dimension's power of two. */
  function SumMask(bits: seq<bool>): nat {
    if bits == [] then 0
    else SumMask(bits[..|bits| - 1]) + (if bits[|bits| - 1] then Pow2(|bits| - 1) else 0)
  }

  /** The number of positions at which two bit strings differ. */
  function CountDiff(a: seq<bool>, b: seq<bool>): nat
    requires |a| == |b|
  {
    if a == [] then 0 else (if a[0] != b[0] then 1 else 0) + CountDiff(a[1..], b[1..])
  }

  lemma {:induction false} OrAdds(m: nat, j: nat)
    requires m < Pow2(j)
    ensures Or(m, Pow2(j)) == m + Pow2(j)
  {
    if j == 0 {
      assert Or(0, 1) == 1 + 2 * Or(0, 0);
    } else {
      OrAdds(m / 2, j - 1);
    }
  }

  /** Masks fit their word: no sum overflows. */
  lemma {:induction false} SumMaskBound(bits: seq<bool>)
    ensures SumMask(bits) < Pow2(|bits|)
  {
    if bits != [] { SumMaskBound(bits[..|bits| - 1]); }
  }

  /** The searcher's mask, built by setting bits one at a time, is the writer's mask. */
  method QueryMask(bits: seq<bool>) returns (m: nat)
    ensures m == SumMask(bits)
    ensures m < Pow2(|bits|)
  {
    m := 0;
    for j := 0 to |bits|
      invariant m == SumMask(bits[..j])
    {
      assert bits[..j + 1][..j] == bits[..j];
      SumMaskBound(bits[..j]);
      OrAdds(m, j);
      if bits[j] {
        m := Or(m, Pow2(j));
      }
    }
    assert bits[..|bits|] == bits;
    SumMaskBound(bits);
  }

  /** The lowest digit of a mask is its first bit. */
  lemma {:induction false} SumMaskHead(bits: seq<bool>)
    requires bits != []
    ensures SumMask(bits) == (if bits[0] then 1 else 0) + 2 * SumMask(bits[1..])
  {
    var n := |bits|;
    if n == 1 {
      assert SumMask(bits[..0]) == 0 && bits[1..] == [];
    } else {
      SumMaskHead(bits[..n - 1]);
      assert bits[..n - 1][1..] == bits[1..][..n - 2];
    }
  }

  lemma XorStep(x: nat, y: nat, a: nat, b: nat)
    requires a <= 1 && b <= 1
    ensures Popcount(Xor(a + 2 * x, b + 2 * y)) == (if a != b then 1 else 0) + Popcount(Xor(x, y))
  {
    assert (a + 2 * x) / 2 == x && (b + 2 * y) / 2 == y;
    assert (a + 2 * x) % 2 == a && (b + 2 * y) % 2 == b;
    var low := if a != b then 1 else 0;
    if a + 2 * x == 0 && b + 2 * y == 0 {
    } else {
      assert Xor(a + 2 * x, b + 2 * y) == low + 2 * Xor(x, y);
      assert (low + 2 * Xor(x, y)) / 2 == Xor(x, y) && (low + 2 * Xor(x, y)) % 2 == low;
    }
  }

  /** The population count of the XOR of two masks is the number of dimensions on which they differ. */
  lemma {:induction false} PopcountXor(a: seq<bool>, b: seq<bool>)
    requires |a| == |b|
    ensures Popcount(Xor(SumMask(a), SumMask(b))) == CountDiff(a, b)
  {
    if a != [] {
      SumMaskHead(a);
      SumMaskHead(b);
      PopcountXor(a[1..], b[1..]);
      XorStep(SumMask(a[1..]), SumMask(b[1..]), if a[0] then 1 else 0, if b[0] then 1 else 0);
    }
  }

  lemma {:induction false} CountDiffSplit(a: seq<bool>, b: seq<bool>, k: nat)
    requires |a| == |b| && k <= |a|
    ensures CountDiff(a, b) == CountDiff(a[..k], b[..k]) + CountDiff(a[k..], b[k..])
  {
    if k > 0 {
      CountDiffSplit(a[1..], b[1..], k - 1);
      assert a[..k][1..] == a[1..][..k - 1] && b[..k][1..] == b[1..][..k - 1];
      assert a[1..][k - 1..] == a[k..] && b[1..][k - 1..] == b[k..];
    } else {
      assert a[..0] == [] && a[0..] == a && b[0..] == b;
    }
  }

  /** On which side of the global mean each coordinate falls; equality counts as below. */
  function Sides(x: seq<real>, mean: seq<real>): (bits: seq<bool>)
    requires |x| == |mean|
    ensures |bits| == |x|
  {
    seq(|x|, i requires 0 <= i < |x| => x[i] > mean[i])
  }

  /** The searcher's Hamming distance between a query mask and a stored mask pair. */
  function Hamming(q0: nat, q1: nat, m0: nat, m1: nat): nat {
    Popcount(Xor(q0, m0)) + Popcount(Xor(q1, m1))
  }

  /** The dimensions in which `q` and `x` lie on different sides of the mean. */
  ghost function Differing(q: seq<real>, x: seq<real>, mean: seq<real>): set<nat>
    requires |q| == |x| == |mean|
  {
    set d: nat | d < |q| && (q[d] > mean[d]) != (x[d] > mean[d])
  }

  ghost function DifferingBits(a: seq<bool>, b: seq<bool>): set<nat>
    requires |a| == |b|
  {
    set d: nat | d < |a| && a[d] != b[d]
  }

  lemma {:induction false} CountDiffIsSize(a: seq<bool>, b: seq<bool>)
    requires |a| == |b|
    ensures CountDiff(a, b) == |DifferingBits(a, b)|
    decreases |a|
  {
    if a == [] {
      assert DifferingBits(a, b) == {};
    } else {
      var n := |a| - 1;
      CountDiffIsSize(a[..n], b[..n]);
      CountDiffSplit(a, b, n);
      assert a[n..] == [a[n]] && b[n..] == [b[n]];
      assert CountDiff(a[n..], b[n..]) == if a[n] != b[n] then 1 else 0;
      var shorter := DifferingBits(a[..n], b[..n]);
      assert DifferingBits(a, b) == if a[n] != b[n] then shorter + {n} else shorter;
    }
  }

  /** The Hamming filter measures exactly the number of dimensions on which vector and query lie on
      different sides of the global mean. */
  lemma HammingCountsSides(x: seq<real>, q: seq<real>, mean: seq<real>)
    requires |x| == |q| == |mean| == 128
    ensures var sx, sq := Sides(x, mean), Sides(q, mean);
            Hamming(SumMask(sq[..64]), SumMask(sq[64..]), SumMask(sx[..64]), SumMask(sx[64..])) == |Differing(q, x, mean)|
  {
    var sx, sq := Sides(x, mean), Sides(q, mean);
    PopcountXor(sq[..64], sx[..64]);
    PopcountXor(sq[64..], sx[64..]);
    CountDiffSplit(sq, sx, 64);
    CountDiffIsSize(sq, sx);
    hide SumMask, CountDiff, Popcount, Xor;
    assert DifferingBits(sq, sx) == Differing(q, x, mean);
  }

  lemma HalfOfPair(b: nat, y: nat, p: nat)
    requires b <= 1 && p > 0
    ensures (b + 2 * y) / (2 * p) == y / p
  {
    var t, r := y / p, y % p;
    assert y == t * p + r;
    assert b + 2 * y == t * (2 * p) + (b + 2 * r);
    DivModIs(b + 2 * y, t, b + 2 * r, 2 * p);
  }

  /** Digit `j` of a mask tells on which side of the mean dimension `j` lies. */
  lemma {:induction false} MaskBit(bits: seq<bool>, j: nat)
    requires j < |bits|
    ensures Pow2(j) > 0 && SumMask(bits) / Pow2(j) % 2 == if bits[j] then 1 else 0
    decreases j
  {
    SumMaskHead(bits);
    var y, b := SumMask(bits[1..]), if bits[0] then 1 else 0;
    hide SumMask;
    if j > 0 {
      MaskBit(bits[1..], j - 1);
      HalfOfPair(b, y, Pow2(j - 1));
    }
  }
}
