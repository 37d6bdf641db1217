/** From a dataset to the tape: grouping rows by cluster, quantizing each cluster, writing the records and
    the segment table, and how far a stored vector is from its row. */
module TapeIndex {
  import opened Collections
  import opened ByteStrings
  import opened TapeRecord
  import opened TapeLayout
  import opened TapeKernel
  import opened TapeMask
  import opened TapeQuant

  // ---------------------------------------------------------------- grouping

  datatype Group = Group(cls: int, start: nat, count: nat)

  /** Length of the leading run of equal labels. */
  function RunLength(s: seq<int>): (n: nat)
    requires s != []
    ensures 1 <= n <= |s| && (forall i :: 0 <= i < n ==> s[i] == s[0]) && (n < |s| ==> s[n] != s[0])
  {
    if |s| == 1 || s[1] != s[0] then 1 else 1 + RunLength(s[1..])
  }

  /** `np.unique` of the sorted labels from position `at` on: one group per run, with its first index
      and its length. */
  function Groups(s: seq<int>, at: nat): seq<Group>
    requires at <= |s|
    decreases |s| - at
  {
    if at == |s| then []
    else
      var n := RunLength(s[at..]);
      [Group(s[at], at, n)] + Groups(s, at + n)
  }

  ghost predicate Ordered(s: seq<int>) { forall i, j :: 0 <= i < j < |s| ==> s[i] <= s[j] }

  /** The rows of all groups, in tape order. */
  ghost function Flatten(order: seq<nat>, gs: seq<Group>): seq<nat>
    requires Within(order, gs)
  {
    if gs == [] then [] else order[gs[0].start..gs[0].start + gs[0].count] + Flatten(order, gs[1..])
  }

  ghost predicate Within(order: seq<nat>, gs: seq<Group>) {
    forall k :: 0 <= k < |gs| ==> gs[k].start + gs[k].count <= |order|
  }

  /** A group is a nonempty run of positions that carry its class. */
  ghost predicate IsRun(s: seq<int>, g: Group) {
    g.count > 0 && g.start + g.count <= |s| && forall i :: g.start <= i < g.start + g.count ==> s[i] == g.cls
  }

  lemma {:induction false} GroupsAreRuns(s: seq<int>, at: nat)
    requires at <= |s|
    ensures forall g :: g in Groups(s, at) ==> IsRun(s, g) && at <= g.start
    decreases |s| - at
  {
    if at < |s| {
      var n := RunLength(s[at..]);
      GroupsAreRuns(s, at + n);
      assert forall i :: at <= i < at + n ==> s[i] == s[at..][i - at];
    }
  }

  ghost predicate Increasing(gs: seq<Group>) { forall i, j :: 0 <= i < j < |gs| ==> gs[i].cls < gs[j].cls }

  ghost predicate AtLeast(gs: seq<Group>, lo: int) { forall k :: 0 <= k < |gs| ==> lo <= gs[k].cls }

  lemma Prepend(g: Group, rest: seq<Group>)
    requires Increasing(rest) && AtLeast(rest, g.cls + 1)
    ensures Increasing([g] + rest) && AtLeast([g] + rest, g.cls)
  {
  }

  lemma {:induction false} ClassesIncrease(s: seq<int>, at: nat)
    requires Ordered(s) && at <= |s|
    ensures Increasing(Groups(s, at)) && (at < |s| ==> AtLeast(Groups(s, at), s[at]))
    decreases |s| - at
  {
    if at < |s| {
      var n := RunLength(s[at..]);
      ClassesIncrease(s, at + n);
      if at + n < |s| {
        assert s[at + n] == s[at..][n] && s[at] < s[at + n];
      }
      Prepend(Group(s[at], at, n), Groups(s, at + n));
    }
  }

  lemma FlattenCons(order: seq<nat>, g: Group, rest: seq<Group>)
    requires g.start + g.count <= |order| && Within(order, rest)
    ensures Within(order, [g] + rest)
    ensures Flatten(order, [g] + rest) == order[g.start..g.start + g.count] + Flatten(order, rest)
  {
    assert ([g] + rest)[1..] == rest;
  }

  lemma GroupsCons(s: seq<int>, at: nat)
    requires at < |s|
    ensures var n := RunLength(s[at..]); Groups(s, at) == [Group(s[at], at, n)] + Groups(s, at + n)
  {
  }

  lemma {:induction false} FlattenIsOrder(s: seq<int>, at: nat, order: seq<nat>)
    requires at <= |s| == |order|
    ensures Within(order, Groups(s, at)) && Flatten(order, Groups(s, at)) == order[at..]
    decreases |s| - at
  {
    hide Groups, RunLength, Flatten, Within;
    if at == |s| {
      FlattenNone(s, order);
      assert order[at..] == [];
    } else {
      var n := RunLength(s[at..]);
      FlattenIsOrder(s, at + n, order);
      GroupsCons(s, at);
      FlattenCons(order, Group(s[at], at, n), Groups(s, at + n));
      SplitAt(order, at, n);
    }
  }

  lemma FlattenNone(s: seq<int>, order: seq<nat>)
    ensures Groups(s, |s|) == [] && Within(order, []) && Flatten(order, []) == []
  {
  }

  lemma SplitAt(order: seq<nat>, at: nat, n: nat)
    requires at + n <= |order|
    ensures order[at..] == order[at..at + n] + order[at + n..]
  {
  }

  /** Groups of sorted labels have distinct classes, hold exactly the positions of their class, and
      together list every row of the order once, in order. */
  lemma GroupsPartition(s: seq<int>, order: seq<nat>)
    requires Ordered(s) && |s| == |order|
    ensures var gs := Groups(s, 0);
            && (forall g :: g in gs ==> IsRun(s, g))
            && Increasing(gs)
            && Within(order, gs) && Flatten(order, gs) == order
  {
    GroupsAreRuns(s, 0);
    ClassesIncrease(s, 0);
    FlattenIsOrder(s, 0, order);
  }

  lemma {:induction false} GroupHolding(s: seq<int>, at: nat, k: nat) returns (p: nat)
    requires at <= k < |s|
    ensures var gs := Groups(s, at); p < |gs| && gs[p].start <= k < gs[p].start + gs[p].count
    decreases |s| - at
  {
    hide RunLength;
    var n := RunLength(s[at..]);
    GroupsCons(s, at);
    if k < at + n {
      p := 0;
    } else {
      var r := GroupHolding(s, at + n, k);
      p := r + 1;
    }
  }

  lemma {:induction false} GroupsDisjoint(s: seq<int>, at: nat, i: nat, j: nat)
    requires at <= |s| && i < j < |Groups(s, at)|
    ensures Groups(s, at)[i].start + Groups(s, at)[i].count <= Groups(s, at)[j].start
    decreases |s| - at
  {
    hide RunLength;
    var n := RunLength(s[at..]);
    GroupsCons(s, at);
    GroupsAreRuns(s, at + n);
    var rest := Groups(s, at + n);
    hide Groups;
    assert Groups(s, at)[j] == rest[j - 1] && rest[j - 1] in rest;
    if i > 0 {
      GroupsDisjoint(s, at + n, i - 1, j - 1);
    }
  }

  // ---------------------------------------------------------------- clusters of records

  /** Vectors, their global mean, their cluster labels, and the order in which rows go to tape. */
  datatype Dataset = Dataset(data: seq<seq<real>>, mean: seq<real>, labels: seq<int>, order: seq<nat>)

  function SortedLabels(ds: Dataset): (s: seq<int>)
    requires forall k :: 0 <= k < |ds.order| ==> ds.order[k] < |ds.labels|
    ensures |s| == |ds.order|
  {
    seq(|ds.order|, k requires 0 <= k < |ds.order| => ds.labels[ds.order[k]])
  }

  /** 128 dimensions, at most 2^32 rows, and an order that is a permutation sorting rows by label. */
  ghost predicate Indexable(ds: Dataset) {
    && |ds.mean| == DIM && |ds.data| == |ds.labels| == |ds.order| <= U32_LIMIT
    && (forall r :: 0 <= r < |ds.data| ==> |ds.data[r]| == DIM)
    && (forall k :: 0 <= k < |ds.order| ==> ds.order[k] < |ds.labels|)
    && Distinct(ds.order)
    && Ordered(SortedLabels(ds))
  }

  ghost predicate GroupOf(ds: Dataset, g: Group) {
    g.count > 0 && g.start + g.count <= |ds.order|
  }

  function Rows(ds: Dataset, g: Group): (rows: seq<nat>)
    requires Indexable(ds) && GroupOf(ds, g)
    ensures |rows| == g.count && forall i :: 0 <= i < |rows| ==> rows[i] < |ds.data|
  {
    ds.order[g.start..g.start + g.count]
  }

  function Vectors(ds: Dataset, g: Group): (vs: seq<seq<real>>)
    requires Indexable(ds) && GroupOf(ds, g)
    ensures |vs| == g.count && forall v :: v in vs ==> |v| == DIM
  {
    var rows := Rows(ds, g);
    seq(|rows|, i requires 0 <= i < |rows| => ds.data[rows[i]])
  }

  function Lo(ds: Dataset, g: Group, d: nat): real
    requires Indexable(ds) && GroupOf(ds, g) && d < DIM
  {
    MinDim(Vectors(ds, g), d)
  }

  function Hi(ds: Dataset, g: Group, d: nat): real
    requires Indexable(ds) && GroupOf(ds, g) && d < DIM
  {
    MaxDim(Vectors(ds, g), d)
  }

  lemma InRange(ds: Dataset, g: Group, i: nat, d: nat)
    requires Indexable(ds) && GroupOf(ds, g) && d < DIM && i < g.count
    ensures Lo(ds, g, d) <= ds.data[Rows(ds, g)[i]][d] <= Hi(ds, g, d)
  {
    WithinMinMax(Vectors(ds, g), d, i);
  }

  lemma LoHi(ds: Dataset, g: Group, d: nat)
    requires Indexable(ds) && GroupOf(ds, g) && d < DIM
    ensures Lo(ds, g, d) <= Hi(ds, g, d)
  {
    InRange(ds, g, 0, d);
  }

  function Scales(ds: Dataset, g: Group): (s: seq<real>)
    requires Indexable(ds) && GroupOf(ds, g)
    ensures |s| == DIM
  {
    seq(DIM, d requires 0 <= d < DIM => Scale(Lo(ds, g, d), Hi(ds, g, d)))
  }

  function ZeroPoints(ds: Dataset, g: Group): (z: seq<real>)
    requires Indexable(ds) && GroupOf(ds, g)
    ensures |z| == DIM
  {
    seq(DIM, d requires 0 <= d < DIM => (LoHi(ds, g, d); ZeroPoint(Lo(ds, g, d), Hi(ds, g, d))))
  }

  function Quantized(ds: Dataset, g: Group, row: nat): (v: seq<int>)
    requires Indexable(ds) && GroupOf(ds, g) && row < |ds.data|
    ensures |v| == DIM
  {
    seq(DIM, d requires 0 <= d < DIM => (LoHi(ds, g, d); Quantize(ds.data[row][d], Lo(ds, g, d), Hi(ds, g, d))))
  }

  /** The record written for one row. */
  function RecordFor(ds: Dataset, g: Group, row: nat): Record
    requires Indexable(ds) && GroupOf(ds, g) && row < |ds.data|
  {
    var sides := Sides(ds.data[row], ds.mean);
    Record(SumMask(sides[..64]), SumMask(sides[64..]), Quantized(ds, g, row), row % U32_LIMIT)
  }

  function ClusterFor(ds: Dataset, g: Group): (c: Cluster)
    requires Indexable(ds) && GroupOf(ds, g)
    ensures |c.records| == g.count && c.cls == g.cls
  {
    var rows := Rows(ds, g);
    Cluster(g.cls, seq(|rows|, i requires 0 <= i < |rows| => RecordFor(ds, g, rows[i])))
  }

  lemma {:induction false} WordSize(n: nat)
    ensures Pow2(8 * n) == Pow256(n)
  {
    if n > 0 {
      WordSize(n - 1);
      var k := 8 * (n - 1);
      assert Pow2(k + 2) == 4 * Pow2(k);
      assert Pow2(k + 4) == 4 * Pow2(k + 2);
      assert Pow2(k + 6) == 4 * Pow2(k + 4);
      assert Pow2(k + 8) == 4 * Pow2(k + 6);
    }
  }

  /** Every field of every written record fits its slot: masks in 64 bits, coordinates in int8 without
      the clip, the row number in 32 bits. */
  lemma RecordFits(ds: Dataset, g: Group, row: nat)
    requires Indexable(ds) && GroupOf(ds, g) && row < |ds.data|
    ensures Fits(RecordFor(ds, g, row))
  {
    hide MinDim, MaxDim;
    var sides := Sides(ds.data[row], ds.mean);
    SumMaskBound(sides[..64]);
    SumMaskBound(sides[64..]);
    WordSize(8);
    WordSize(4);
    assert Pow256(4) == U32_LIMIT by { assert Pow256(2) == 65536; }
  }

  /** In a dimension that varies within a group, some row is stored as -128 and some row as 127, and a step is
      the 255th part of the range. */
  lemma DimensionIsCovered(ds: Dataset, g: Group, d: nat) returns (i: nat, j: nat)
    requires Indexable(ds) && GroupOf(ds, g) && d < DIM && Lo(ds, g, d) < Hi(ds, g, d)
    ensures i < g.count && Quantized(ds, g, Rows(ds, g)[i])[d] == -128
    ensures j < g.count && Quantized(ds, g, Rows(ds, g)[j])[d] == 127
    ensures ds.data[Rows(ds, g)[j]][d] - ds.data[Rows(ds, g)[i]][d] == Scales(ds, g)[d] * 255.0
  {
    i, j := MinMaxAttained(Vectors(ds, g), d);
    hide MinDim, MaxDim, Quantize, Scale;
    RangeIsCovered(Lo(ds, g, d), Hi(ds, g, d));
  }

  /** The masks of a written record say, digit by digit, on which side of the mean the row lies. */
  lemma RecordMasks(ds: Dataset, g: Group, row: nat, d: nat)
    requires Indexable(ds) && GroupOf(ds, g) && row < |ds.data| && d < 64
    ensures Pow2(d) > 0
    ensures var r, x := RecordFor(ds, g, row), ds.data[row];
            && r.mask0 / Pow2(d) % 2 == (if x[d] > ds.mean[d] then 1 else 0)
            && r.mask1 / Pow2(d) % 2 == (if x[64 + d] > ds.mean[64 + d] then 1 else 0)
  {
    hide Quantized, SumMask, Pow2;
    var sides := Sides(ds.data[row], ds.mean);
    MaskBit(sides[..64], d);
    MaskBit(sides[64..], d);
  }

  /** The clusters as the writer lays them out. They can be written: every record fits and no class
      occurs twice. */
  ghost function Clusters(ds: Dataset): (cs: seq<Cluster>)
    requires Indexable(ds)
    ensures |cs| == |Groups(SortedLabels(ds), 0)| && Writable(cs)
  {
    var gs := Groups(SortedLabels(ds), 0);
    AllGroups(ds);
    var cs := seq(|gs|, i requires 0 <= i < |gs| => ClusterFor(ds, gs[i]));
    ClustersWritable(ds, cs);
    cs
  }

  lemma GroupAt(ds: Dataset, i: nat)
    requires Indexable(ds) && i < |Groups(SortedLabels(ds), 0)|
    ensures GroupOf(ds, Groups(SortedLabels(ds), 0)[i])
  {
    hide Groups;
    GroupsAreRuns(SortedLabels(ds), 0);
    assert Groups(SortedLabels(ds), 0)[i] in Groups(SortedLabels(ds), 0);
  }

  lemma AllGroups(ds: Dataset)
    requires Indexable(ds)
    ensures forall i :: 0 <= i < |Groups(SortedLabels(ds), 0)| ==> GroupOf(ds, Groups(SortedLabels(ds), 0)[i])
  {
    forall i | 0 <= i < |Groups(SortedLabels(ds), 0)|
      ensures GroupOf(ds, Groups(SortedLabels(ds), 0)[i])
    {
      GroupAt(ds, i);
    }
  }

  lemma ClusterFits(ds: Dataset, g: Group)
    requires Indexable(ds) && GroupOf(ds, g)
    ensures AllFit(ClusterFor(ds, g).records)
  {
    hide Fits, RecordFor, Indexable;
    var rs := ClusterFor(ds, g).records;
    forall r | r in rs
      ensures Fits(r)
    {
      var i :| 0 <= i < |rs| && rs[i] == r;
      RecordFits(ds, g, Rows(ds, g)[i]);
    }
  }

  lemma ClustersWritable(ds: Dataset, cs: seq<Cluster>)
    requires Indexable(ds) && |cs| == |Groups(SortedLabels(ds), 0)|
    requires forall i :: 0 <= i < |cs| ==> GroupOf(ds, Groups(SortedLabels(ds), 0)[i])
                                           && cs[i] == ClusterFor(ds, Groups(SortedLabels(ds), 0)[i])
    ensures Writable(cs)
  {
    hide AllFit, Groups, ClusterFor;
    var gs := Groups(SortedLabels(ds), 0);
    assert Ordered(SortedLabels(ds)) by { LabelsOrdered(ds); }
    ClassesIncrease(SortedLabels(ds), 0);
    forall c | c in cs
      ensures AllFit(c.records)
    {
      var i :| 0 <= i < |cs| && cs[i] == c;
      ClusterFits(ds, gs[i]);
    }
  }

  lemma LabelsOrdered(ds: Dataset)
    requires Indexable(ds)
    ensures Ordered(SortedLabels(ds))
  {
  }

  lemma ClusterAt(ds: Dataset, p: nat)
    requires Indexable(ds) && p < |Clusters(ds)|
    ensures var g := Groups(SortedLabels(ds), 0)[p]; GroupOf(ds, g) && Clusters(ds)[p] == ClusterFor(ds, g)
  {
    hide Groups, ClusterFor;
    GroupAt(ds, p);
  }

  // ---------------------------------------------------------------- the writer

  function InfoFor(ds: Dataset, g: Group, segment: Segment): ClusterInfo
    requires Indexable(ds) && GroupOf(ds, g)
  {
    ClusterInfo(segment, Scales(ds, g), ZeroPoints(ds, g))
  }

  /** The table entry of the `p`-th group. */
  ghost function TableEntry(ds: Dataset, chunk: nat, p: nat): (int, ClusterInfo)
    requires Indexable(ds) && chunk > 0 && p < |Clusters(ds)|
  {
    GroupAt(ds, p);
    var g := Groups(SortedLabels(ds), 0)[p];
    (g.cls, InfoFor(ds, g, EntryOf(Clusters(ds), chunk, p)))
  }

  /** The writer: one segment of records and one table entry per group of rows. */
  method BuildIndex(ds: Dataset, chunk: nat) returns (tape: seq<byte>, file: seq<(int, ClusterInfo)>)
    requires Indexable(ds) && chunk > 0
    ensures tape == TapeOf(Clusters(ds), chunk)
    ensures |file| == |Clusters(ds)| && forall p :: 0 <= p < |file| ==> file[p] == TableEntry(ds, chunk, p)
  {
    hide AllFit, SegmentBytes, Clusters, Groups, ClusterFor, GroupOf, InfoFor, TableEntry, SortedLabels, Written;
    var gs := Groups(SortedLabels(ds), 0);
    hide Indexable;
    tape, file := [], [];
    NothingWritten(ds, chunk);
    var currentOffset := 0;
    for n := 0 to |gs|
      invariant tape == Written(ds, chunk, n) && currentOffset == |tape|
      invariant |file| == n && forall p :: 0 <= p < n ==> file[p] == TableEntry(ds, chunk, p)
    {
      OneMoreWritten(ds, chunk, n);
      var segment;
      tape, segment := WriteCluster(tape, currentOffset, ClusterFor(ds, gs[n]).records, chunk);
      file := file + [(gs[n].cls, InfoFor(ds, gs[n], segment))];
      currentOffset := currentOffset + segment.lengthBytes;
    }
  }

  /** The file after the first `n` groups. */
  ghost function Written(ds: Dataset, chunk: nat, n: nat): seq<byte>
    requires Indexable(ds) && chunk > 0 && n <= |Clusters(ds)|
  {
    TapeOf(Clusters(ds)[..n], chunk)
  }

  lemma NothingWritten(ds: Dataset, chunk: nat)
    requires Indexable(ds) && chunk > 0
    ensures Written(ds, chunk, 0) == [] && Written(ds, chunk, |Clusters(ds)|) == TapeOf(Clusters(ds), chunk)
  {
    hide Clusters;
    EmptyTape(Clusters(ds), chunk);
    assert Clusters(ds)[..|Clusters(ds)|] == Clusters(ds);
  }

  lemma OneMoreWritten(ds: Dataset, chunk: nat, n: nat)
    requires Indexable(ds) && chunk > 0 && n < |Clusters(ds)|
    ensures var g := Groups(SortedLabels(ds), 0)[n];
            && GroupOf(ds, g) && AllFit(ClusterFor(ds, g).records)
            && var bytes := SegmentBytes(ClusterFor(ds, g).records, chunk);
               && Written(ds, chunk, n + 1) == Written(ds, chunk, n) + bytes
               && TableEntry(ds, chunk, n)
                  == (g.cls, InfoFor(ds, g, Segment(g.count, |Written(ds, chunk, n)|, |bytes|)))
  {
    hide Clusters, Groups, ClusterFor, InfoFor, SegmentBytes, TapeOf, EntryOf;
    ClusterAt(ds, n);
    EntryIs(ds, chunk, n);
    TapeGrows(Clusters(ds), chunk, n);
  }

  lemma EntryIs(ds: Dataset, chunk: nat, p: nat)
    requires Indexable(ds) && chunk > 0 && p < |Clusters(ds)|
    ensures var g := Groups(SortedLabels(ds), 0)[p];
            GroupOf(ds, g) && TableEntry(ds, chunk, p) == (g.cls, InfoFor(ds, g, EntryOf(Clusters(ds), chunk, p)))
  {
    hide Groups, Clusters, InfoFor, EntryOf;
    GroupAt(ds, p);
  }

  // ---------------------------------------------------------------- error of the stored distance

  /** Sum over the first `n` dimensions of `|q - x| * s + s^2 / 4`. */
  function ErrorBound(q: seq<real>, x: seq<real>, s: seq<real>, n: nat): real
    requires n <= |q| && n <= |x| && n <= |s|
  {
    if n == 0 then 0.0 else ErrorBound(q, x, s, n - 1) + Slack(q[n - 1], x[n - 1], s[n - 1])
  }

  function RowOperands(ds: Dataset, g: Group, q: seq<real>, row: nat): (o: Operands)
    requires Indexable(ds) && GroupOf(ds, g) && row < |ds.data| && |q| == DIM
    ensures Sized(o)
  {
    Operands(q, Quantized(ds, g, row), Scales(ds, g), ZeroPoints(ds, g))
  }

  /** One dimension of one row: the coordinate the searcher reads back is within half a step. */
  lemma CoordinateError(ds: Dataset, g: Group, q: seq<real>, i: nat, d: nat)
    requires Indexable(ds) && GroupOf(ds, g) && i < g.count && |q| == DIM && d < DIM
    ensures var row := Rows(ds, g)[i];
            var o := RowOperands(ds, g, q, row);
            && o.query == q && o.scale[d] > 0.0
            && Abs(ds.data[row][d] - Back(o, d)) <= o.scale[d] / 2.0
            && Abs(SqDiff(q[d], Back(o, d)) - SqDiff(q[d], ds.data[row][d])) <= Slack(q[d], ds.data[row][d], o.scale[d])
  {
    hide MinDim, MaxDim, Scale, ZeroPoint, Quantize, Abs, SqDiff, Slack, Back, Dequantize, RowOperands, Lo, Hi;
    var row := Rows(ds, g)[i];
    InRange(ds, g, i, d);
    ScalePositive(Lo(ds, g, d), Hi(ds, g, d));
    QuantError(ds.data[row][d], Lo(ds, g, d), Hi(ds, g, d));
    ReadsBack(ds, g, q, row, d);
    var o := RowOperands(ds, g, q, row);
    SquareMoves(q[d], ds.data[row][d], Back(o, d), o.scale[d]);
  }

  /** What the kernel computes from a stored byte is the quantizer's inverse. */
  lemma ReadsBack(ds: Dataset, g: Group, q: seq<real>, row: nat, d: nat)
    requires Indexable(ds) && GroupOf(ds, g) && row < |ds.data| && |q| == DIM && d < DIM
    ensures Lo(ds, g, d) <= Hi(ds, g, d)
    ensures var o, lo, hi := RowOperands(ds, g, q, row), Lo(ds, g, d), Hi(ds, g, d);
            && o.scale[d] == Scale(lo, hi) && o.query == q
            && Back(o, d) == Dequantize(Quantize(ds.data[row][d], lo, hi), lo, hi)
  {
    hide MinDim, MaxDim, Quantize;
    LoHi(ds, g, d);
  }

  lemma AbsSum(a: real, b: real, e: real, c: real, d: real, f: real)
    ensures Abs(a - b) <= e && Abs(c - d) <= f ==> Abs((a + c) - (b + d)) <= e + f
    ensures Abs(0.0) == 0.0
  {
  }

  /** The asymmetric distance to a stored vector differs from the true squared distance by at most the
      sum over dimensions of `|q_d - x_d| * s_d + s_d^2 / 4`. */
  lemma {:induction false} DistanceError(ds: Dataset, g: Group, q: seq<real>, i: nat, n: nat)
    requires Indexable(ds) && GroupOf(ds, g) && i < g.count && |q| == DIM && n <= DIM
    ensures var row := Rows(ds, g)[i];
            var o := RowOperands(ds, g, q, row);
            Abs(SquaredDistance(o, n) - TrueDistance(q, ds.data[row], n)) <= ErrorBound(q, ds.data[row], o.scale, n)
  {
    hide Abs, RowOperands, SqDiff, Slack, Back;
    var row := Rows(ds, g)[i];
    var o, x := RowOperands(ds, g, q, row), ds.data[row];
    if n == 0 {
      AbsSum(0.0, 0.0, 0.0, 0.0, 0.0, 0.0);
    } else {
      var d := n - 1;
      DistanceError(ds, g, q, i, d);
      CoordinateError(ds, g, q, i, d);
      AbsSum(SquaredDistance(o, d), TrueDistance(q, x, d), ErrorBound(q, x, o.scale, d),
             SqDiff(q[d], Back(o, d)), SqDiff(q[d], x[d]), Slack(q[d], x[d], o.scale[d]));
    }
  }
}
