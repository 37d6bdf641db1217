/** A query over the written tape, stated over the rows of the dataset that was written. */
module TapeEndToEnd {
  import opened Collections
  import opened ByteStrings
  import opened TapeRecord
  import opened TapeLayout
  import opened TapeKernel
  import opened TapeMask
  import opened TapeQuant
  import opened TopK
  import opened TapeSearch
  import opened TapeDrain
  import opened TapeIndex
  import TapeAnswer

  /** The query as the searcher prepares it. */
  function QueryFor(ds: Dataset, q: seq<real>): Query
    requires |q| == |ds.mean| == DIM
  {
    var sides := Sides(q, ds.mean);
    Query(q, SumMask(sides[..64]), SumMask(sides[64..]))
  }

  /** Row and query lie on different sides of the mean in at most 45 dimensions. */
  ghost predicate Near(ds: Dataset, q: seq<real>, row: nat)
    requires Indexable(ds) && |q| == DIM && row < |ds.data|
  {
    |Differing(q, ds.data[row], ds.mean)| <= 45
  }

  /** The first `n` rows of a group that are near the query, each with the distance to its stored form
      and its own row number. */
  ghost function RowCandidates(rnd: real -> real, ds: Dataset, q: seq<real>, g: Group, n: nat): seq<Entry>
    requires Indexable(ds) && GroupOf(ds, g) && |q| == DIM && n <= g.count
  {
    if n == 0 then []
    else
      var row := Rows(ds, g)[n - 1];
      RowCandidates(rnd, ds, q, g, n - 1)
      + (if Near(ds, q, row) then [Entry(Distance(rnd, RowOperands(ds, g, q, row), 16), row)] else [])
  }

  /** The Hamming filter on a written record decides nearness of its row. */
  lemma PassesIffNear(ds: Dataset, q: seq<real>, g: Group, row: nat)
    requires Indexable(ds) && GroupOf(ds, g) && |q| == DIM && row < |ds.data|
    ensures Passes(QueryFor(ds, q), RecordFor(ds, g, row)) <==> Near(ds, q, row)
  {
    hide Quantized, SumMask, Popcount, Xor, Differing;
    HammingCountsSides(ds.data[row], q, ds.mean);
  }

  /** The candidates read off a cluster's records are the near rows of its group. */
  lemma {:induction false} CandidatesAreRows(rnd: real -> real, ds: Dataset, q: seq<real>, g: Group, s: Segment, n: nat)
    requires Indexable(ds) && GroupOf(ds, g) && |q| == DIM && n <= g.count
    ensures var rs := ClusterFor(ds, g).records[..n];
            && Whole(rs)
            && Candidates(rnd, QueryFor(ds, q), InfoFor(ds, g, s), rs) == RowCandidates(rnd, ds, q, g, n)
  {
    hide Passes, Near, Distance, Scales, ZeroPoints, Quantized, QueryFor, SumMask, Sides;
    var all := ClusterFor(ds, g).records;
    assert Usable(QueryFor(ds, q), InfoFor(ds, g, s)) && QueryFor(ds, q).vector == q by { QueryVector(ds, q); }
    if n > 0 {
      CandidatesAreRows(rnd, ds, q, g, s, n - 1);
      assert all[..n][..n - 1] == all[..n - 1];
      PassesIffNear(ds, q, g, Rows(ds, g)[n - 1]);
    }
  }

  lemma QueryVector(ds: Dataset, q: seq<real>)
    requires |q| == |ds.mean| == DIM
    ensures QueryFor(ds, q).vector == q
  {
  }

  // ---------------------------------------------------------------- a query

  /** The probed groups, by position in the table. */
  ghost predicate Probes(ds: Dataset, probes: seq<nat>)
    requires Indexable(ds)
  {
    forall i :: 0 <= i < |probes| ==> probes[i] < |Groups(SortedLabels(ds), 0)|
  }

  /** The segment of the `p`-th group. */
  ghost function SegmentFor(ds: Dataset, chunk: nat, p: nat): Segment
    requires Indexable(ds) && chunk > 0 && p < |Clusters(ds)|
  {
    EntryOf(Clusters(ds), chunk, p)
  }

  /** The reads of one query over the written tape. */
  ghost function JobFor(rnd: real -> real, ds: Dataset, q: seq<real>, chunk: nat, probes: seq<nat>, width: nat): (j: Job)
    requires Indexable(ds) && |q| == DIM && chunk > 0 && Probes(ds, probes)
    ensures |j.infos| == |probes|
  {
    Job(rnd, QueryFor(ds, q),
        seq(|probes|, i requires 0 <= i < |probes| => TableEntry(ds, chunk, probes[i]).1),
        TapeOf(Clusters(ds), chunk), width)
  }

  /** A buffer slot is as wide as the longest segment in the table. */
  ghost predicate WideEnough(ds: Dataset, chunk: nat, width: nat)
    requires Indexable(ds) && chunk > 0
  {
    forall p :: 0 <= p < |Clusters(ds)| ==> SegmentFor(ds, chunk, p).lengthBytes <= width
  }

  lemma JobRuns(rnd: real -> real, ds: Dataset, q: seq<real>, chunk: nat, probes: seq<nat>, width: nat)
    requires Indexable(ds) && |q| == DIM && chunk > 0 && Probes(ds, probes)
    requires WideEnough(ds, chunk, width) && IsRounding(rnd)
    ensures Runnable(JobFor(rnd, ds, q, chunk, probes, width))
  {
    hide IsRounding, Groups, Scales, ZeroPoints, QueryFor, SegmentBytes;
    var j := JobFor(rnd, ds, q, chunk, probes, width);
    QueryVector(ds, q);
    forall i | 0 <= i < |j.infos|
      ensures Usable(j.query, j.infos[i])
      ensures var s := j.infos[i].segment;
              s.byteOffset + s.lengthBytes <= |j.tape| && RECORD_BYTES * s.numVectors <= s.lengthBytes <= j.width
    {
      EntryFits(ds, chunk, probes[i]);
    }
  }

  lemma EntryFits(ds: Dataset, chunk: nat, p: nat)
    requires Indexable(ds) && chunk > 0 && p < |Clusters(ds)|
    ensures var s := SegmentFor(ds, chunk, p);
            s.byteOffset + s.lengthBytes <= |TapeOf(Clusters(ds), chunk)| && RECORD_BYTES * s.numVectors <= s.lengthBytes
  {
    hide Indexable, Clusters;
    SegmentAt(Clusters(ds), chunk, p);
    SegmentsTile(Clusters(ds), chunk, p);
  }

  /** What a slot of the query offers is its group's near rows. */
  lemma SlotIsGroup(rnd: real -> real, ds: Dataset, q: seq<real>, chunk: nat, probes: seq<nat>, width: nat, i: nat)
    requires Indexable(ds) && |q| == DIM && chunk > 0 && Probes(ds, probes)
    requires Runnable(JobFor(rnd, ds, q, chunk, probes, width)) && i < |probes|
    ensures GroupOf(ds, Groups(SortedLabels(ds), 0)[probes[i]])
    ensures var g := Groups(SortedLabels(ds), 0)[probes[i]];
            SlotCandidates(JobFor(rnd, ds, q, chunk, probes, width), i) == RowCandidates(rnd, ds, q, g, g.count)
  {
    hide Groups, Scales, ZeroPoints, QueryFor, SegmentBytes, Candidates, RowCandidates, Runnable, RecordFor;
    var j := JobFor(rnd, ds, q, chunk, probes, width);
    var p := probes[i];
    var g := Groups(SortedLabels(ds), 0)[p];
    GroupAt(ds, p);
    SlotRecords(ds, chunk, p);
    assert SlotData(j, i) == j.tape[j.infos[i].segment.byteOffset..j.infos[i].segment.byteOffset + j.infos[i].segment.lengthBytes] by {
      TapeSlice(j, i);
    }
    CandidatesAreRows(rnd, ds, q, g, j.infos[i].segment, g.count);
    assert ClusterFor(ds, g).records[..g.count] == ClusterFor(ds, g).records;
  }

  /** The segment of a group, cut out of the tape, decodes to the group's records. */
  lemma SlotRecords(ds: Dataset, chunk: nat, p: nat)
    requires Indexable(ds) && chunk > 0 && p < |Clusters(ds)|
    ensures var s := SegmentFor(ds, chunk, p);
            && s.byteOffset + s.lengthBytes <= |TapeOf(Clusters(ds), chunk)|
            && RECORD_BYTES * s.numVectors <= s.lengthBytes
            && RecordsIn(TapeOf(Clusters(ds), chunk)[s.byteOffset..s.byteOffset + s.lengthBytes], 0, s.numVectors)
               == Clusters(ds)[p].records
  {
    hide Indexable, Clusters, Decode, Fits, TapeOf;
    EntryFits(ds, chunk, p);
    SegmentAt(Clusters(ds), chunk, p);
    var s, rs := SegmentFor(ds, chunk, p), Clusters(ds)[p].records;
    var data := TapeOf(Clusters(ds), chunk)[s.byteOffset..s.byteOffset + s.lengthBytes];
    assert Clusters(ds)[p] in Clusters(ds);
    forall v | 0 <= v < s.numVectors
      ensures RecordsIn(data, 0, s.numVectors)[v] == rs[v]
    {
      RecordsReadBack(data, 0, rs, chunk, v);
    }
  }

  /** All near rows of the probed groups, in probe order. */
  ghost function NearRows(rnd: real -> real, ds: Dataset, q: seq<real>, probes: seq<nat>): seq<Entry>
    requires Indexable(ds) && |q| == DIM && Probes(ds, probes)
  {
    if probes == [] then []
    else
      var p := probes[|probes| - 1];
      GroupAt(ds, p);
      var g := Groups(SortedLabels(ds), 0)[p];
      NearRows(rnd, ds, q, probes[..|probes| - 1]) + RowCandidates(rnd, ds, q, g, g.count)
  }

  lemma {:induction false} SlotsAreNearRows(rnd: real -> real, ds: Dataset, q: seq<real>, chunk: nat, probes: seq<nat>,
                                            width: nat, n: nat)
    requires Indexable(ds) && |q| == DIM && chunk > 0 && Probes(ds, probes)
    requires Runnable(JobFor(rnd, ds, q, chunk, probes, width)) && n <= |probes|
    ensures Slots(JobFor(rnd, ds, q, chunk, probes, width), TapeAnswer.InOrder(n)) && Probes(ds, probes[..n])
    ensures AllCandidates(JobFor(rnd, ds, q, chunk, probes, width), TapeAnswer.InOrder(n)) == NearRows(rnd, ds, q, probes[..n])
  {
    hide Groups, SlotCandidates, RowCandidates, Runnable, JobFor, Indexable;
    if n > 0 {
      SlotsAreNearRows(rnd, ds, q, chunk, probes, width, n - 1);
      SlotIsGroup(rnd, ds, q, chunk, probes, width, n - 1);
      assert TapeAnswer.InOrder(n)[..n - 1] == TapeAnswer.InOrder(n - 1);
      assert probes[..n][..n - 1] == probes[..n - 1];
    }
  }

  /** The end-to-end statement. Write any dataset, probe any of its clusters, let the reads complete in
      any order: the distances of the answer are the ten smallest (or all, if fewer) among the rows of
      those clusters that are near the query, and every answered ID is such a row with its distance. */
  lemma QueryAnswer(rnd: real -> real, ds: Dataset, q: seq<real>, chunk: nat, probes: seq<nat>, width: nat, order: seq<nat>)
    requires Indexable(ds) && |q| == DIM && chunk > 0 && Probes(ds, probes)
    requires WideEnough(ds, chunk, width) && IsRounding(rnd)
    requires |order| == |probes| && (forall k :: 0 <= k < |order| ==> order[k] < |probes|) && Distinct(order)
    ensures Runnable(JobFor(rnd, ds, q, chunk, probes, width)) && Slots(JobFor(rnd, ds, q, chunk, probes, width), order)
    ensures var answer := OfferAll([], AllCandidates(JobFor(rnd, ds, q, chunk, probes, width), order), TOP);
            var all := NearRows(rnd, ds, q, probes);
            && Dists(answer) == Take(Sort(Dists(all)), TOP)
            && KSmallest(Dists(answer), Dists(all), TOP)
            && multiset(answer) <= multiset(all)
  {
    hide Groups, AllCandidates, OfferAll, NearRows, Runnable, Indexable, Sort, KSmallest, IsRounding, WideEnough;
    JobRuns(rnd, ds, q, chunk, probes, width);
    var j := JobFor(rnd, ds, q, chunk, probes, width);
    SlotsAreNearRows(rnd, ds, q, chunk, probes, width, |probes|);
    assert probes[..|probes|] == probes;
    TapeAnswer.AnswerIsOrderFree(j, order);
  }

  /** The query itself: drain the reads of the probed clusters and answer from the heap. */
  method AnswerQuery(j: Job, s: Searcher, buffer: array<byte>, ring: CompletionRing, ghost ds: Dataset, ghost q: seq<real>,
                     ghost chunk: nat, ghost probes: seq<nat>)
    requires Indexable(ds) && |q| == DIM && chunk > 0 && Probes(ds, probes)
    requires j == JobFor(j.rnd, ds, q, chunk, probes, j.width) && WideEnough(ds, chunk, j.width) && IsRounding(j.rnd)
    requires s.topK == [] && buffer.Length == PoolSize(j)
    requires ring.head == ring.tail && |probes| <= ring.entries.Length
    modifies s, buffer, ring, ring.entries
    ensures KSmallest(Dists(s.topK), Dists(NearRows(j.rnd, ds, q, probes)), TOP)
    ensures multiset(s.topK) <= multiset(NearRows(j.rnd, ds, q, probes))
  {
    hide Indexable, KSmallest, JobFor, IsRounding, WideEnough, Probes, NearRows, PoolSize;
    assert |j.infos| == |probes|;
    JobRuns(j.rnd, ds, q, chunk, probes, j.width);
    ghost var order := Drain(j, s, buffer, ring);
    QueryAnswer(j.rnd, ds, q, chunk, probes, j.width, order);
  }

  /** In exact arithmetic, a row's distance in the answer differs from its true squared distance by at
      most the quantization bound. */
  lemma AnswerError(ds: Dataset, q: seq<real>, g: Group, i: nat, chunks: nat)
    requires Indexable(ds) && GroupOf(ds, g) && i < g.count && |q| == DIM && 8 * chunks <= DIM
    ensures var row := Rows(ds, g)[i];
            var o := RowOperands(ds, g, q, row);
            Abs(Distance(Exact, o, chunks) - TrueDistance(q, ds.data[row], 8 * chunks))
            <= ErrorBound(q, ds.data[row], o.scale, 8 * chunks)
  {
    hide SquaredDistance, TrueDistance, ErrorBound, RowOperands, Distance, Indexable;
    ExactDistance(RowOperands(ds, g, q, Rows(ds, g)[i]), chunks);
    DistanceError(ds, g, q, i, 8 * chunks);
  }

  /** A near row is a row of a probed group, with the distance to its stored form. */
  ghost predicate IsNearRow(rnd: real -> real, ds: Dataset, q: seq<real>, g: Group, i: nat, e: Entry)
    requires Indexable(ds) && |q| == DIM
  {
    && GroupOf(ds, g) && i < g.count
    && e.id == Rows(ds, g)[i] && Near(ds, q, e.id)
    && e.dist == Distance(rnd, RowOperands(ds, g, q, e.id), 16)
  }

  lemma {:induction false} CandidateIs(rnd: real -> real, ds: Dataset, q: seq<real>, g: Group, n: nat, e: Entry) returns (i: nat)
    requires Indexable(ds) && GroupOf(ds, g) && |q| == DIM && n <= g.count && e in RowCandidates(rnd, ds, q, g, n)
    ensures IsNearRow(rnd, ds, q, g, i, e)
  {
    hide Indexable, Near, Distance, RowOperands;
    if e in RowCandidates(rnd, ds, q, g, n - 1) {
      i := CandidateIs(rnd, ds, q, g, n - 1, e);
    } else {
      i := n - 1;
    }
  }

  lemma {:induction false} NearRowIs(rnd: real -> real, ds: Dataset, q: seq<real>, probes: seq<nat>, e: Entry) returns (g: Group, i: nat)
    requires Indexable(ds) && |q| == DIM && Probes(ds, probes) && e in NearRows(rnd, ds, q, probes)
    ensures IsNearRow(rnd, ds, q, g, i, e) && exists k :: 0 <= k < |probes| && g == Groups(SortedLabels(ds), 0)[probes[k]]
  {
    hide Groups, RowCandidates, IsNearRow;
    var n := |probes| - 1;
    if e in NearRows(rnd, ds, q, probes[..n]) {
      g, i := NearRowIs(rnd, ds, q, probes[..n], e);
      var k :| 0 <= k < n && g == Groups(SortedLabels(ds), 0)[probes[..n][k]];
      assert probes[k] == probes[..n][k];
    } else {
      GroupAt(ds, probes[n]);
      g := Groups(SortedLabels(ds), 0)[probes[n]];
      i := CandidateIs(rnd, ds, q, g, g.count, e);
    }
  }

  /** How far the answer is from brute force. In exact arithmetic, a row `x` that is answered is no farther
      from the query than a near row `y` of the probed clusters that is left out, up to the quantization
      errors of the two: no row that is better by more than that is missed. */
  lemma AnswerAccuracy(ds: Dataset, q: seq<real>, probes: seq<nat>, answer: seq<Entry>, x: Entry, y: Entry)
    returns (gx: Group, i: nat, gy: Group, k: nat)
    requires Indexable(ds) && |q| == DIM && Probes(ds, probes)
    requires var all := NearRows(Exact, ds, q, probes);
             && KSmallest(Dists(answer), Dists(all), TOP) && multiset(answer) <= multiset(all)
             && x in answer && multiset(answer)[y] < multiset(all)[y]
    ensures IsNearRow(Exact, ds, q, gx, i, x) && IsNearRow(Exact, ds, q, gy, k, y)
    ensures TrueDistance(q, ds.data[x.id], DIM) - ErrorBound(q, ds.data[x.id], Scales(ds, gx), DIM)
            <= TrueDistance(q, ds.data[y.id], DIM) + ErrorBound(q, ds.data[y.id], Scales(ds, gy), DIM)
  {
    hide Indexable, Near, Distance, TrueDistance, ErrorBound, KSmallest, NearRows, Scales, Quantized, ZeroPoints;
    var all := NearRows(Exact, ds, q, probes);
    assert x in multiset(answer);
    assert x in all && y in all;
    gx, i := NearRowIs(Exact, ds, q, probes, x);
    gy, k := NearRowIs(Exact, ds, q, probes, y);
    AnswerError(ds, q, gx, i, 16);
    AnswerError(ds, q, gy, k, 16);
    var p :| 0 <= p < |answer| && answer[p] == x;
    assert Dists(answer)[p] == x.dist;
    LeftOut(answer, all, y, x.dist, TOP);
  }

  // ---------------------------------------------------------------- every row is on the tape once

  lemma RecordId(ds: Dataset, p: nat, v: nat)
    requires Indexable(ds) && p < |Clusters(ds)| && v < |Clusters(ds)[p].records|
    ensures var g := Groups(SortedLabels(ds), 0)[p];
            g.start + v < |ds.order| && v < g.count && Clusters(ds)[p].records[v].id == ds.order[g.start + v]
  {
    hide Groups, Quantized, Sides;
    GroupAt(ds, p);
  }

  /** A permutation contains every row. */
  lemma OrderHas(order: seq<nat>, row: nat) returns (k: nat)
    requires Distinct(order) && (forall i :: 0 <= i < |order| ==> order[i] < |order|) && row < |order|
    ensures k < |order| && order[k] == row
  {
    TapeAnswer.AllSlotsOnce(order, |order|);
    assert TapeAnswer.InOrder(|order|)[row] == row;
    assert row in multiset(order);
    k :| 0 <= k < |order| && order[k] == row;
  }

  /** Every row is the ID of some record. */
  lemma RowIsWritten(ds: Dataset, row: nat) returns (p: nat, v: nat)
    requires Indexable(ds) && row < |ds.data|
    ensures p < |Clusters(ds)| && v < |Clusters(ds)[p].records| && Clusters(ds)[p].records[v].id == row
  {
    hide Groups;
    var k := OrderHas(ds.order, row);
    p := GroupHolding(SortedLabels(ds), 0, k);
    v := k - Groups(SortedLabels(ds), 0)[p].start;
    assert v < |Clusters(ds)[p].records|;
    hide Clusters, Indexable;
    RecordId(ds, p, v);
  }

  /** No two records carry the same ID. */
  lemma RowIsWrittenOnce(ds: Dataset, p: nat, v: nat, p': nat, v': nat)
    requires Indexable(ds) && p < |Clusters(ds)| && p' < |Clusters(ds)|
    requires v < |Clusters(ds)[p].records| && v' < |Clusters(ds)[p'].records|
    requires Clusters(ds)[p].records[v].id == Clusters(ds)[p'].records[v'].id
    ensures p == p' && v == v'
  {
    hide Groups, Clusters;
    RecordId(ds, p, v);
    RecordId(ds, p', v');
    if p < p' {
      GroupsDisjoint(SortedLabels(ds), 0, p, p');
    } else if p' < p {
      GroupsDisjoint(SortedLabels(ds), 0, p', p);
    }
  }

  // ---------------------------------------------------------------- from writing to answering

  /** Some group of the tape has this class. */
  ghost predicate HasClass(ds: Dataset, cls: int)
    requires Indexable(ds)
  {
    exists p :: 0 <= p < |Groups(SortedLabels(ds), 0)| && Groups(SortedLabels(ds), 0)[p].cls == cls
  }

  /** Where the group of a class stands. */
  ghost function PositionOf(ds: Dataset, cls: int): (p: nat)
    requires Indexable(ds) && HasClass(ds, cls)
    ensures p < |Groups(SortedLabels(ds), 0)| && Groups(SortedLabels(ds), 0)[p].cls == cls
  {
    var p: nat :| p < |Groups(SortedLabels(ds), 0)| && Groups(SortedLabels(ds), 0)[p].cls == cls;
    p
  }

  ghost predicate AllClasses(ds: Dataset, targets: seq<nat>)
    requires Indexable(ds)
  {
    forall i :: 0 <= i < |targets| ==> HasClass(ds, targets[i])
  }

  ghost function PositionsOf(ds: Dataset, targets: seq<nat>): (probes: seq<nat>)
    requires Indexable(ds) && AllClasses(ds, targets)
    ensures |probes| == |targets| && Probes(ds, probes)
    ensures forall i :: 0 <= i < |targets| ==> Groups(SortedLabels(ds), 0)[probes[i]].cls == targets[i]
  {
    hide Groups, HasClass;
    seq(|targets|, i requires 0 <= i < |targets| => PositionOf(ds, targets[i]))
  }

  /** Every centroid owns a row. */
  ghost predicate Owned(ds: Dataset, n: nat) { forall c: nat :: c < n ==> HasLabel(ds, c) }

  ghost predicate HasLabel(ds: Dataset, c: int) { exists row :: 0 <= row < |ds.labels| && ds.labels[row] == c }

  lemma OwnedClass(ds: Dataset, row: nat)
    requires Indexable(ds) && row < |ds.labels|
    ensures HasClass(ds, ds.labels[row])
  {
    hide Groups;
    var k := OrderHas(ds.order, row);
    var s := SortedLabels(ds);
    var p := GroupHolding(s, 0, k);
    GroupsAreRuns(s, 0);
    assert Groups(s, 0)[p] in Groups(s, 0);
    assert s[k] == ds.labels[row];
  }

  /** The table file lists the entries of all groups, in any order. */
  ghost predicate Lists(file: seq<(int, ClusterInfo)>, ds: Dataset, chunk: nat)
    requires Indexable(ds) && chunk > 0
  {
    && (forall i, j :: 0 <= i < j < |file| ==> file[i].0 != file[j].0)
    && (forall p :: 0 <= p < |Clusters(ds)| ==> TableEntry(ds, chunk, p) in file)
  }

  lemma WrittenLists(file: seq<(int, ClusterInfo)>, ds: Dataset, chunk: nat)
    requires Indexable(ds) && chunk > 0
    requires |file| == |Clusters(ds)| && forall p :: 0 <= p < |file| ==> file[p] == TableEntry(ds, chunk, p)
    ensures Lists(file, ds, chunk)
  {
    hide Groups, Clusters, InfoFor, EntryOf;
    LabelsOrdered(ds);
    ClassesIncrease(SortedLabels(ds), 0);
    forall p | 0 <= p < |file|
      ensures file[p].0 == Groups(SortedLabels(ds), 0)[p].cls
    {
      EntryIs(ds, chunk, p);
    }
  }

  /** Fetch the table entries of the routed clusters. */
  method LookUp(table: map<int, ClusterInfo>, targets: seq<nat>) returns (infos: seq<ClusterInfo>)
    requires forall i :: 0 <= i < |targets| ==> targets[i] as int in table
    ensures |infos| == |targets| && forall i :: 0 <= i < |targets| ==> infos[i] == table[targets[i]]
  {
    infos := [];
    for i := 0 to |targets|
      invariant |infos| == i && forall k :: 0 <= k < i ==> infos[k] == table[targets[k]]
    {
      infos := infos + [table[targets[i]]];
    }
  }

  lemma EntryOfClass(file: seq<(int, ClusterInfo)>, table: map<int, ClusterInfo>, ds: Dataset, chunk: nat, p: nat)
    requires Indexable(ds) && chunk > 0 && Lists(file, ds, chunk) && p < |Clusters(ds)|
    requires forall i :: 0 <= i < |file| ==> file[i].0 in table && table[file[i].0] == file[i].1
    ensures var cls := Groups(SortedLabels(ds), 0)[p].cls;
            && cls in table && table[cls] == TableEntry(ds, chunk, p).1
            && exists i :: 0 <= i < |file| && file[i].1.segment == SegmentFor(ds, chunk, p)
  {
    hide Groups, Clusters, EntryOf, Indexable;
    EntryIs(ds, chunk, p);
    hide TableEntry;
    var i :| 0 <= i < |file| && file[i] == TableEntry(ds, chunk, p);
  }

  /** The searcher, from the files to the answer: load the table, prepare the masks, route, read, drain. The
      clusters it probes are the nearest centroids' and its distances are the ten smallest among their near
      rows. */
  method Search(rnd: real -> real, tape: seq<byte>, file: seq<(int, ClusterInfo)>, mean: seq<real>,
                centroids: seq<seq<real>>, q: seq<real>, probes: nat, ghost ds: Dataset, ghost chunk: nat)
    returns (answer: seq<Entry>, targets: seq<nat>)
    requires Indexable(ds) && chunk > 0 && IsRounding(rnd) && |q| == DIM && mean == ds.mean
    requires tape == TapeOf(Clusters(ds), chunk) && Lists(file, ds, chunk)
    requires AllSized(centroids) && 1 <= probes <= 10000 && probes <= |centroids| && Owned(ds, |centroids|)
    ensures Nearest(targets, CentroidDistances(rnd, q, centroids), probes) && AllClasses(ds, targets)
    ensures var all := NearRows(rnd, ds, q, PositionsOf(ds, targets));
            KSmallest(Dists(answer), Dists(all), 10) && multiset(answer) <= multiset(all)
  {
    hide Indexable, IsRounding, Owned, Lists, Nearest, CentroidDistances, KSmallest, NearRows, Clusters, Groups;
    hide PositionsOf, JobFor, AllClasses, Probes, WideEnough, PoolSize;
    var j;
    j, targets := Prepare(rnd, tape, file, mean, centroids, q, probes, ds, chunk);
    var s := new Searcher();
    var buffer := new byte[PoolSize(j)];
    var size := RingSize(probes);
    var ring := new CompletionRing(size);
    AnswerQuery(j, s, buffer, ring, ds, q, chunk, PositionsOf(ds, targets));
    answer := s.topK;
  }

  /** The two query masks, bit by bit. */
  method PrepareQuery(q: seq<real>, mean: seq<real>, ghost ds: Dataset) returns (query: Query)
    requires |q| == |mean| == DIM && mean == ds.mean
    ensures query == QueryFor(ds, q)
  {
    hide SumMask;
    var sides := Sides(q, mean);
    var m0 := QueryMask(sides[..64]);
    var m1 := QueryMask(sides[64..]);
    query := Query(q, m0, m1);
  }

  /** Everything up to submitting the reads. */
  method Prepare(rnd: real -> real, tape: seq<byte>, file: seq<(int, ClusterInfo)>, mean: seq<real>,
                 centroids: seq<seq<real>>, q: seq<real>, probes: nat, ghost ds: Dataset, ghost chunk: nat)
    returns (j: Job, targets: seq<nat>)
    requires Indexable(ds) && chunk > 0 && |q| == DIM && mean == ds.mean
    requires tape == TapeOf(Clusters(ds), chunk) && Lists(file, ds, chunk)
    requires AllSized(centroids) && 1 <= probes <= |centroids| && Owned(ds, |centroids|)
    ensures Nearest(targets, CentroidDistances(rnd, q, centroids), probes) && AllClasses(ds, targets)
    ensures |targets| == probes
    ensures j.rnd == rnd && j == JobFor(rnd, ds, q, chunk, PositionsOf(ds, targets), j.width) && WideEnough(ds, chunk, j.width)
  {
    hide TapeOf, Owned, Lists, Nearest, CentroidDistances, Clusters, Groups, QueryFor;
    hide PositionsOf, JobFor, AllClasses, Probes, WideEnough, TableEntry;
    var query := PrepareQuery(q, mean, ds);
    hide Indexable;
    targets := Route(rnd, q, centroids, probes);
    RoutedClasses(ds, targets, CentroidDistances(rnd, q, centroids), probes);
    ListsDistinct(file, ds, chunk);
    var table, width := LoadTable(file);
    TargetsListed(file, table, width, ds, chunk, targets);
    var infos := LookUp(table, targets);
    j := Job(rnd, query, infos, tape, width);
    JobIs(j, ds, q, chunk, PositionsOf(ds, targets));
  }

  lemma ListsDistinct(file: seq<(int, ClusterInfo)>, ds: Dataset, chunk: nat)
    requires Indexable(ds) && chunk > 0 && Lists(file, ds, chunk)
    ensures forall i, j :: 0 <= i < j < |file| ==> file[i].0 != file[j].0
  {
  }

  lemma RoutedClasses(ds: Dataset, targets: seq<nat>, dists: seq<real>, probes: nat)
    requires Indexable(ds) && Owned(ds, |dists|) && Nearest(targets, dists, probes)
    ensures |targets| == probes && AllClasses(ds, targets)
  {
    hide Indexable, HasClass;
    forall i | 0 <= i < |targets|
      ensures HasClass(ds, targets[i])
    {
      assert HasLabel(ds, targets[i]);
      var row :| 0 <= row < |ds.labels| && ds.labels[row] == targets[i];
      OwnedClass(ds, row);
    }
  }

  lemma TargetsListed(file: seq<(int, ClusterInfo)>, table: map<int, ClusterInfo>, width: nat, ds: Dataset, chunk: nat,
                      targets: seq<nat>)
    requires Indexable(ds) && chunk > 0 && Lists(file, ds, chunk) && AllClasses(ds, targets)
    requires forall i :: 0 <= i < |file| ==> file[i].0 in table && table[file[i].0] == file[i].1
    requires forall i :: 0 <= i < |file| ==> file[i].1.segment.lengthBytes <= width
    ensures WideEnough(ds, chunk, width)
    ensures forall i :: 0 <= i < |targets| ==>
              targets[i] as int in table && table[targets[i]] == TableEntry(ds, chunk, PositionsOf(ds, targets)[i]).1
  {
    hide Indexable, Groups, Clusters, Lists, HasClass, TableEntry, SegmentFor, PositionsOf;
    forall p | 0 <= p < |Clusters(ds)|
      ensures SegmentFor(ds, chunk, p).lengthBytes <= width
    {
      EntryOfClass(file, table, ds, chunk, p);
    }
    forall i | 0 <= i < |targets|
      ensures targets[i] as int in table && table[targets[i]] == TableEntry(ds, chunk, PositionsOf(ds, targets)[i]).1
    {
      EntryOfClass(file, table, ds, chunk, PositionsOf(ds, targets)[i]);
    }
  }

  lemma JobIs(j: Job, ds: Dataset, q: seq<real>, chunk: nat, probes: seq<nat>)
    requires Indexable(ds) && chunk > 0 && |q| == DIM && Probes(ds, probes)
    requires j.query == QueryFor(ds, q) && j.tape == TapeOf(Clusters(ds), chunk)
    requires |j.infos| == |probes| && forall i :: 0 <= i < |probes| ==> j.infos[i] == TableEntry(ds, chunk, probes[i]).1
    ensures j == JobFor(j.rnd, ds, q, chunk, probes, j.width)
  {
    hide Indexable, Groups, Clusters, TableEntry, QueryFor;
  }

  /** The whole system: write any dataset, then answer any query over the files. */
  method WriteAndSearch(rnd: real -> real, ds: Dataset, chunk: nat, centroids: seq<seq<real>>, q: seq<real>, probes: nat)
    returns (answer: seq<Entry>, targets: seq<nat>)
    requires Indexable(ds) && chunk > 0 && IsRounding(rnd) && |q| == DIM
    requires AllSized(centroids) && 1 <= probes <= 10000 && probes <= |centroids| && Owned(ds, |centroids|)
    ensures Nearest(targets, CentroidDistances(rnd, q, centroids), probes) && AllClasses(ds, targets)
    ensures var all := NearRows(rnd, ds, q, PositionsOf(ds, targets));
            KSmallest(Dists(answer), Dists(all), 10) && multiset(answer) <= multiset(all)
  {
    hide Indexable, IsRounding, Owned, Lists, Nearest, CentroidDistances, KSmallest, NearRows, Clusters, Groups;
    hide PositionsOf, AllClasses, TableEntry;
    var tape, file := BuildIndex(ds, chunk);
    WrittenLists(file, ds, chunk);
    answer, targets := Search(rnd, tape, file, ds.mean, centroids, q, probes, ds, chunk);
  }
}
