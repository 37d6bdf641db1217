/** Byte strings: unsigned words in little-endian order, slices, and division with remainder. */
module ByteStrings {

  type byte = x: int | 0 <= x < 256

  function Pow256(n: nat): nat { if n == 0 then 1 else 256 * Pow256(n - 1) }

  /** Little-endian bytes of an unsigned word. */
  function ToLe(x: nat, n: nat): (b: seq<byte>)
    ensures |b| == n
  {
    if n == 0 then [] else [x % 256] + ToLe(x / 256, n - 1)
  }

  function FromLe(b: seq<byte>): nat {
    if b == [] then 0 else b[0] + 256 * FromLe(b[1..])
  }

  lemma {:induction false} LeRoundTrip(x: nat, n: nat)
    requires x < Pow256(n)
    ensures FromLe(ToLe(x, n)) == x
  {
    if n > 0 {
      LeRoundTrip(x / 256, n - 1);
      assert ToLe(x, n)[1..] == ToLe(x / 256, n - 1);
    }
  }

  /** Byte `k` of a word is its digit of weight 256^k: the least significant one comes first. */
  lemma {:induction false} LeByte(x: nat, n: nat, k: nat)
    requires k < n
    ensures Pow256(k) > 0 && ToLe(x, n)[k] == x / Pow256(k) % 256
    decreases k
  {
    if k > 0 {
      LeByte(x / 256, n - 1, k - 1);
      NextDigit(x, Pow256(k - 1));
    }
  }

  lemma NextDigit(x: nat, p: nat)
    requires p > 0
    ensures x / 256 / p == x / (256 * p)
  {
    var q, r := x / 256, x % 256;
    var t, u := q / p, q % p;
    assert q == t * p + u;
    assert t * (256 * p) == 256 * (t * p);
    DivModIs(x, t, 256 * u + r, 256 * p);
  }

  lemma MultipleIsLarge(k: int, m: int)
    requires m > 0
    ensures k >= 1 ==> k * m >= m
    ensures k <= -1 ==> k * m <= -m
  {
    if k >= 1 {
      assert (k - 1) * m >= 0;
    } else if k <= -1 {
      assert (-k - 1) * m >= 0;
    }
  }

  /** Division with remainder is unique. */
  lemma DivModIs(x: nat, t: nat, r: nat, m: nat)
    requires r < m && x == t * m + r
    ensures x / m == t && x % m == r
  {
    var q, s := x / m, x % m;
    assert x == q * m + s;
    assert (t - q) * m == t * m - q * m == s - r;
    MultipleIsLarge(t - q, m);
  }

  /** A piece of a copied piece is that piece of the original. */
  lemma SubSlice(buffer: seq<byte>, at: nat, data: seq<byte>, lo: nat, hi: nat)
    requires lo <= hi <= |data| && at + |data| <= |buffer| && buffer[at..at + |data|] == data
    ensures buffer[at + lo..at + hi] == data[lo..hi]
  {
    forall m | 0 <= m < hi - lo
      ensures buffer[at + lo..at + hi][m] == data[lo..hi][m]
    {
      assert data[lo + m] == buffer[at..at + |data|][lo + m];
    }
  }

  /** Copy bytes into a buffer; nothing else moves. */
  method CopyInto(a: array<byte>, at: nat, data: seq<byte>)
    requires at + |data| <= a.Length
    modifies a
    ensures a[..] == old(a[..at]) + data + old(a[at + |data|..])
    ensures a[at..at + |data|] == data
    ensures forall k :: 0 <= k < a.Length && !(at <= k < at + |data|) ==> a[k] == old(a[k])
  {
    for n := 0 to |data|
      invariant forall k :: 0 <= k < n ==> a[at + k] == data[k]
      invariant forall k :: 0 <= k < a.Length && !(at <= k < at + n) ==> a[k] == old(a[k])
    {
      a[at + n] := data[n];
    }
  }
}
