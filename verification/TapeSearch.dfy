/** The searcher: route to the nearest clusters, submit one read per cluster, process the reads as they
    complete, keep the ten best. */
module TapeSearch {
  import opened Collections
  import opened ByteStrings
  import opened TapeRecord
  import opened TapeLayout
  import opened TapeKernel
  import opened TapeMask
  import opened TopK

  const TOP: nat := 10
  const BITMASK_THRESHOLD: nat := 45

  datatype Query = Query(vector: seq<real>, mask0: nat, mask1: nat)

  predicate Usable(q: Query, info: ClusterInfo) {
    |q.vector| == |info.scale| == |info.zp| == DIM
  }

  function OperandsOf(q: Query, info: ClusterInfo, r: Record): Operands {
    Operands(q.vector, r.vector, info.scale, info.zp)
  }

  predicate Passes(q: Query, r: Record) {
    Hamming(q.mask0, q.mask1, r.mask0, r.mask1) <= BITMASK_THRESHOLD
  }

  /** The full distance is not computed: the masks are too far apart, or ten entries are already at
      least as close as the first 16 dimensions alone. */
  ghost predicate Skipped(rnd: real -> real, q: Query, info: ClusterInfo, r: Record, topK: seq<Entry>, worst: real)
    requires Usable(q, info) && |r.vector| == DIM
  {
    !Passes(q, r) || (|topK| >= TOP && Distance(rnd, OperandsOf(q, info, r), 2) >= worst)
  }

  ghost predicate Whole(rs: seq<Record>) { forall r :: r in rs ==> |r.vector| == DIM }

  /** What an unpruned search would offer the heap: every record that passes the Hamming filter, with
      its full distance. */
  ghost function Candidates(rnd: real -> real, q: Query, info: ClusterInfo, rs: seq<Record>): seq<Entry>
    requires Usable(q, info) && Whole(rs)
  {
    if rs == [] then []
    else
      var r := rs[|rs| - 1];
      assert r in rs;
      Candidates(rnd, q, info, rs[..|rs| - 1])
      + (if Passes(q, r) then [Entry(Distance(rnd, OperandsOf(q, info, r), 16), r.id)] else [])
  }

  ghost function RecordsIn(buffer: seq<byte>, at: nat, n: nat): (rs: seq<Record>)
    requires at + RECORD_BYTES * n <= |buffer|
    ensures |rs| == n && Whole(rs)
  {
    seq(n, v requires 0 <= v < n => RecordIn(buffer, at, v))
  }

  class Searcher {
    var topK: seq<Entry>
    var heapWorst: real
    var simdAvoided: nat

    constructor ()
      ensures topK == [] && simdAvoided == 0
    {
      topK, heapWorst, simdAvoided := [], 340282346638528859811704183484516925440.0, 0;
    }

    /** At most ten entries; once there are ten, `heapWorst` is the distance of the worst. */
    ghost predicate HeapOk()
      reads this
    {
      |topK| <= TOP && (|topK| == TOP ==> heapWorst == topK[TOP - 1].dist)
    }

    /** The heap update after a full distance. */
    method Keep(dist: real, id: nat)
      requires HeapOk()
      modifies this`topK, this`heapWorst
      ensures HeapOk() && topK == Offer(old(topK), Entry(dist, id), TOP)
    {
      InsertSize(topK, Entry(dist, id));
      if |topK| < TOP {
        topK := Insert(topK, Entry(dist, id));
        if |topK| == TOP {
          heapWorst := topK[|topK| - 1].dist;
        }
      } else if dist < heapWorst {
        InsertSize(topK[..|topK| - 1], Entry(dist, id));
        topK := topK[..|topK| - 1];
        topK := Insert(topK, Entry(dist, id));
        heapWorst := topK[|topK| - 1].dist;
      }
    }

    /** One record behind both shortcuts - the Hamming filter and the 16-dimension lower bound. The
        second is invisible: the heap ends as if the full distance had been offered. */
    method ProcessRecord(rnd: real -> real, q: Query, info: ClusterInfo, r: Record)
      requires IsRounding(rnd) && Usable(q, info) && |r.vector| == DIM && HeapOk()
      modifies this
      ensures HeapOk()
      ensures topK == if Passes(q, r) then Offer(old(topK), Entry(Distance(rnd, OperandsOf(q, info, r), 16), r.id), TOP)
                      else old(topK)
      ensures simdAvoided == old(simdAvoided) + (if Skipped(rnd, q, info, r, old(topK), old(heapWorst)) then 1 else 0)
    {
      hide Insert, Distance, IsRounding, Hamming;
      if Hamming(q.mask0, q.mask1, r.mask0, r.mask1) > BITMASK_THRESHOLD {
        simdAvoided := simdAvoided + 1;
        return;
      }
      var o := OperandsOf(q, info, r);
      if |topK| >= TOP {
        var p := L2(rnd, o, 16);
        if p >= heapWorst {
          PartialIsLowerBound(rnd, o, 2, 16);
          simdAvoided := simdAvoided + 1;
          return;
        }
      }
      var dist := L2(rnd, o, 128);
      Keep(dist, r.id);
    }

    /** One completed cluster: the heap ends exactly as if every record that passes the Hamming filter
        had been offered, in order, with its full distance. */
    method ProcessCluster(rnd: real -> real, q: Query, info: ClusterInfo, buffer: array<byte>, at: nat)
      requires IsRounding(rnd) && Usable(q, info) && HeapOk()
      requires at + RECORD_BYTES * info.segment.numVectors <= buffer.Length
      modifies this
      ensures HeapOk()
      ensures topK == OfferAll(old(topK), Candidates(rnd, q, info, RecordsIn(buffer[..], at, info.segment.numVectors)), TOP)
      ensures old(simdAvoided) <= simdAvoided <= old(simdAvoided) + info.segment.numVectors
    {
      hide IsRounding, Distance, Passes, Offer, Decode, HeapOk;
      ghost var rs := RecordsIn(buffer[..], at, info.segment.numVectors);
      for v := 0 to info.segment.numVectors
        invariant HeapOk()
        invariant topK == OfferAll(old(topK), Candidates(rnd, q, info, rs[..v]), TOP)
        invariant old(simdAvoided) <= simdAvoided <= old(simdAvoided) + v
      {
        var r := Decode(buffer[at + RECORD_BYTES * v..at + RECORD_BYTES * v + RECORD_BYTES]);
        assert buffer[at + RECORD_BYTES * v..at + RECORD_BYTES * v + RECORD_BYTES]
          == buffer[..][at + RECORD_BYTES * v..at + RECORD_BYTES * v + RECORD_BYTES];
        assert rs[v] == r && r in rs;
        OneMore(rnd, q, info, rs, v, old(topK));
        ProcessRecord(rnd, q, info, r);
      }
      assert rs[..info.segment.numVectors] == rs;
    }
  }

  lemma OneMore(rnd: real -> real, q: Query, info: ClusterInfo, rs: seq<Record>, v: nat, h: seq<Entry>)
    requires Usable(q, info) && Whole(rs) && v < |rs|
    ensures rs[v] in rs
    ensures var sofar := OfferAll(h, Candidates(rnd, q, info, rs[..v]), TOP);
            OfferAll(h, Candidates(rnd, q, info, rs[..v + 1]), TOP)
            == if Passes(q, rs[v]) then Offer(sofar, Entry(Distance(rnd, OperandsOf(q, info, rs[v]), 16), rs[v].id), TOP)
               else sofar
  {
    hide Distance, Passes, Offer;
    assert rs[..v + 1][..v] == rs[..v] && rs[v] in rs;
    assert Candidates(rnd, q, info, rs[..v]) + [] == Candidates(rnd, q, info, rs[..v]);
    OfferLast(h, Candidates(rnd, q, info, rs[..v]), Entry(Distance(rnd, OperandsOf(q, info, rs[v]), 16), rs[v].id), TOP);
  }

  lemma {:induction false} InsertSize(h: seq<Entry>, e: Entry)
    ensures |Insert(h, e)| == |h| + 1
  {
    if h != [] && !Leq(e, h[0]) { InsertSize(h[1..], e); }
  }

  lemma OfferLast(h: seq<Entry>, es: seq<Entry>, e: Entry, k: nat)
    ensures OfferAll(h, es + [e], k) == Offer(OfferAll(h, es, k), e, k)
  {
    assert (es + [e])[..|es|] == es;
  }

  /** Read the table file, entry by entry in whatever order it lists them: the table by class, and the width
      of a buffer slot, which is the longest segment. */
  method LoadTable(file: seq<(int, ClusterInfo)>) returns (table: map<int, ClusterInfo>, width: nat)
    requires forall i, j :: 0 <= i < j < |file| ==> file[i].0 != file[j].0
    ensures forall i :: 0 <= i < |file| ==> file[i].0 in table && table[file[i].0] == file[i].1
    ensures forall c :: c in table ==> exists i :: 0 <= i < |file| && file[i].0 == c
    ensures forall i :: 0 <= i < |file| ==> file[i].1.segment.lengthBytes <= width
    ensures width == 0 || exists i :: 0 <= i < |file| && file[i].1.segment.lengthBytes == width
  {
    table, width := map[], 0;
    for n := 0 to |file|
      invariant forall i :: 0 <= i < n ==> file[i].0 in table && table[file[i].0] == file[i].1
      invariant forall c :: c in table ==> exists i :: 0 <= i < n && file[i].0 == c
      invariant forall i :: 0 <= i < n ==> file[i].1.segment.lengthBytes <= width
      invariant width == 0 || exists i :: 0 <= i < n && file[i].1.segment.lengthBytes == width
    {
      var (cls, info) := file[n];
      if info.segment.lengthBytes > width {
        width := info.segment.lengthBytes;
      }
      table := table[cls := info];
    }
  }

  // ---------------------------------------------------------------- routing

  ghost predicate AllSized(centroids: seq<seq<real>>) { forall c :: c in centroids ==> |c| == DIM }

  /** The distances of a query to all centroids, as the kernel computes them. */
  function CentroidDistances(rnd: real -> real, q: seq<real>, centroids: seq<seq<real>>): (ds: seq<real>)
    requires |q| == DIM && AllSized(centroids)
    ensures |ds| == |centroids|
  {
    seq(|centroids|, i requires 0 <= i < |centroids| => CentroidDistance(rnd, q, centroids[i]))
  }

  function CentroidEntries(dists: seq<real>): (es: seq<Entry>)
    ensures |es| == |dists|
  {
    seq(|dists|, i requires 0 <= i < |dists| => Entry(dists[i], i))
  }

  /** Push while there is room, otherwise replace the worst entry if this one is closer. */
  method Consider(heap: seq<Entry>, e: Entry, room: nat) returns (heap': seq<Entry>)
    requires room > 0
    ensures heap' == Offer(heap, e, room) && |heap'| == if |heap| < room then |heap| + 1 else |heap|
  {
    hide Insert;
    InsertSize(heap, e);
    heap' := heap;
    if |heap| < room {
      heap' := Insert(heap, e);
    } else if e.dist < heap[|heap| - 1].dist {
      InsertSize(heap[..|heap| - 1], e);
      heap' := heap[..|heap| - 1];
      heap' := Insert(heap', e);
    }
  }

  lemma OfferNone(k: nat)
    ensures OfferAll([], [], k) == []
  {
  }

  /** The scan of all centroids through a heap of `probes` entries. */
  method RouteScan(rnd: real -> real, q: seq<real>, centroids: seq<seq<real>>, probes: nat) returns (heap: seq<Entry>)
    requires |q| == DIM && AllSized(centroids) && 1 <= probes <= |centroids|
    ensures heap == OfferAll([], CentroidEntries(CentroidDistances(rnd, q, centroids)), probes)
  {
    hide OfferAll, CentroidDistance;
    OfferNone(probes);
    ghost var es := CentroidEntries(CentroidDistances(rnd, q, centroids));
    heap := [];
    for i := 0 to |centroids|
      invariant heap == OfferAll([], es[..i], probes) && |heap| == if i < probes then i else probes
    {
      var dist := FloatL2(rnd, q, centroids[i]);
      var e := Entry(dist, i);
      assert es[..i + 1] == es[..i] + [e];
      OfferLast([], es[..i], e, probes);
      heap := Consider(heap, e, probes);
    }
    assert es[..|centroids|] == es;
  }

  /** `targets` are `probes` different clusters, nearest first, and no other is nearer than one of them. */
  ghost predicate Nearest(targets: seq<nat>, dists: seq<real>, probes: nat) {
    && |targets| == probes && Distinct(targets)
    && (forall i :: 0 <= i < probes ==> targets[i] < |dists|)
    && (forall i, j :: 0 <= i < j < probes ==> dists[targets[i]] <= dists[targets[j]])
    && (forall i, c: nat :: 0 <= i < probes && c < |dists| && c !in targets ==> dists[targets[i]] <= dists[c])
  }

  /** Pick the `probes` nearest clusters: fill the heap, then drain it from the worst to the best. */
  method Route(rnd: real -> real, q: seq<real>, centroids: seq<seq<real>>, probes: nat) returns (targets: seq<nat>)
    requires |q| == DIM && AllSized(centroids) && 1 <= probes <= |centroids|
    ensures Nearest(targets, CentroidDistances(rnd, q, centroids), probes)
  {
    ghost var dists := CentroidDistances(rnd, q, centroids);
    hide OfferAll, KSmallest, CentroidDistances, CentroidEntries, Nearest;
    var heap := RouteScan(rnd, q, centroids, probes);
    targets := Unload(heap);
    RoutedNearest(dists, heap, targets, probes);
  }

  /** Empty a heap from the top, filling the result from the back. */
  method Unload(full: seq<Entry>) returns (ids: seq<nat>)
    ensures |ids| == |full| && forall j :: 0 <= j < |full| ==> ids[j] == full[j].id
  {
    var heap := full;
    ids := [];
    for i := |full| downto 0
      invariant heap == full[..i]
      invariant |ids| == |full| - i && forall j :: i <= j < |full| ==> ids[j - i] == full[j].id
    {
      ids := [heap[|heap| - 1].id] + ids;
      heap := heap[..|heap| - 1];
    }
  }

  lemma RoutedNearest(dists: seq<real>, heap: seq<Entry>, targets: seq<nat>, probes: nat)
    requires 1 <= probes <= |dists| && heap == OfferAll([], CentroidEntries(dists), probes)
    requires |targets| == |heap| && forall i :: 0 <= i < |heap| ==> targets[i] == heap[i].id
    ensures Nearest(targets, dists, probes)
  {
    hide OfferAll, KSmallest, CentroidEntries;
    RoutedHeap(dists, heap, probes);
    OthersAreFarther(dists, heap, targets, probes);
  }

  /** A cluster that is not in the heap is at least as far as every one that is. */
  lemma OthersAreFarther(dists: seq<real>, heap: seq<Entry>, targets: seq<nat>, probes: nat)
    requires |heap| == probes == |targets| && multiset(heap) <= multiset(CentroidEntries(dists))
    requires KSmallest(Dists(heap), dists, probes)
    requires forall i :: 0 <= i < probes ==> targets[i] == heap[i].id && targets[i] < |dists| && heap[i].dist == dists[targets[i]]
    ensures forall i, c: nat :: 0 <= i < probes && c < |dists| && c !in targets ==> dists[targets[i]] <= dists[c]
  {
    var es := CentroidEntries(dists);
    assert Dists(es) == dists;
    hide KSmallest, CentroidEntries;
    forall i, c: nat | 0 <= i < probes && c < |dists| && c !in targets
      ensures dists[targets[i]] <= dists[c]
    {
      var e := Entry(dists[c], c);
      assert es[c] == e by { EntryAt(dists, c); }
      assert e !in heap;
      assert Dists(heap)[i] in Dists(heap);
      LeftOut(heap, es, e, Dists(heap)[i], probes);
    }
  }

  lemma EntryAt(dists: seq<real>, c: nat)
    requires c < |dists|
    ensures CentroidEntries(dists)[c] == Entry(dists[c], c)
  {
  }

  lemma RoutedHeap(dists: seq<real>, heap: seq<Entry>, probes: nat)
    requires 1 <= probes <= |dists| && heap == OfferAll([], CentroidEntries(dists), probes)
    ensures |heap| == probes && KSmallest(Dists(heap), dists, probes) && multiset(heap) <= multiset(CentroidEntries(dists))
    ensures forall i :: 0 <= i < probes ==> heap[i].id < |dists| && heap[i].dist == dists[heap[i].id]
    ensures forall i, j :: 0 <= i < j < probes ==> heap[i].id != heap[j].id && heap[i].dist <= heap[j].dist
  {
    var es := CentroidEntries(dists);
    OfferAllKeepsSmallest(es, probes);
    assert Dists(es) == dists;
    TakeSortIsKSmallest(dists, probes);
    forall i | 0 <= i < |heap|
      ensures heap[i].id < |dists| && heap[i] == es[heap[i].id]
    {
      assert heap[i] in multiset(heap);
      assert heap[i] in es;
    }
    forall i, j | 0 <= i < j < |heap|
      ensures heap[i].id != heap[j].id
    {
      if heap[i].id == heap[j].id {
        TwiceInMultiset(heap, i, j);
        OnceInEntries(dists, heap[i]);
      }
    }
  }

  lemma TwiceInMultiset(h: seq<Entry>, i: nat, j: nat)
    requires i < j < |h| && h[i] == h[j]
    ensures multiset(h)[h[i]] >= 2
  {
    assert h == h[..j] + [h[j]] + h[j + 1..];
    assert h[i] in h[..j];
  }

  lemma {:induction false} OnceInEntries(dists: seq<real>, e: Entry)
    ensures multiset(CentroidEntries(dists))[e] <= 1
    decreases |dists|
  {
    var es := CentroidEntries(dists);
    if dists != [] {
      var n := |dists| - 1;
      OnceInEntries(dists[..n], e);
      assert es == CentroidEntries(dists[..n]) + [es[n]];
      if e == es[n] {
        assert forall i :: 0 <= i < n ==> CentroidEntries(dists[..n])[i].id == i;
        assert e !in CentroidEntries(dists[..n]);
      }
    }
  }
}
