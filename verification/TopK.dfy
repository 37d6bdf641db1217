/** A bounded max-heap of (distance, id) pairs, as both the router and the searcher use one: push while
    there is room, otherwise replace the worst entry when strictly closer. The priority queue is
    represented by its contents in ascending pair order, so the top is the last element. */
module TopK {
  import opened Collections

  datatype Entry = Entry(dist: real, id: nat)

  /** Lexicographic order of pairs. */
  predicate Leq(a: Entry, b: Entry) {
    a.dist < b.dist || (a.dist == b.dist && a.id <= b.id)
  }

  ghost predicate Ascending(h: seq<Entry>) {
    forall i, j :: 0 <= i < j < |h| ==> Leq(h[i], h[j])
  }

  function Insert(h: seq<Entry>, e: Entry): seq<Entry> {
    if h == [] then [e] else if Leq(e, h[0]) then [e] + h else [h[0]] + Insert(h[1..], e)
  }

  /** One candidate against a heap that keeps `k` entries. */
  function Offer(h: seq<Entry>, e: Entry, k: nat): seq<Entry> {
    if |h| < k then Insert(h, e)
    else if h != [] && e.dist < h[|h| - 1].dist then Insert(h[..|h| - 1], e)
    else h
  }

  function OfferAll(h: seq<Entry>, es: seq<Entry>, k: nat): seq<Entry>
    decreases |es|
  {
    if es == [] then h else Offer(OfferAll(h, es[..|es| - 1], k), es[|es| - 1], k)
  }

  lemma {:induction false} OfferAllConcat(h: seq<Entry>, a: seq<Entry>, b: seq<Entry>, k: nat)
    ensures OfferAll(h, a + b, k) == OfferAll(OfferAll(h, a, k), b, k)
    decreases |b|
  {
    if b == [] {
      assert a + b == a;
    } else {
      assert (a + b)[..|a + b| - 1] == a + b[..|b| - 1];
      OfferAllConcat(h, a, b[..|b| - 1], k);
    }
  }

  // ---------------------------------------------------------------- sorting as the reference

  function Dists(h: seq<Entry>): (ds: seq<real>)
    ensures |ds| == |h|
  {
    seq(|h|, i requires 0 <= i < |h| => h[i].dist)
  }

  ghost predicate Sorted(ds: seq<real>) {
    forall i, j :: 0 <= i < j < |ds| ==> ds[i] <= ds[j]
  }

  function InsertReal(ds: seq<real>, d: real): seq<real> {
    if ds == [] then [d] else if d <= ds[0] then [d] + ds else [ds[0]] + InsertReal(ds[1..], d)
  }

  function Sort(ds: seq<real>): seq<real>
    decreases |ds|
  {
    if ds == [] then [] else InsertReal(Sort(ds[..|ds| - 1]), ds[|ds| - 1])
  }

  lemma {:induction false} InsertRealBound(ds: seq<real>, d: real, b: real)
    requires b <= d && forall i :: 0 <= i < |ds| ==> b <= ds[i]
    ensures forall i :: 0 <= i < |InsertReal(ds, d)| ==> b <= InsertReal(ds, d)[i]
  {
    if ds != [] && d > ds[0] { InsertRealBound(ds[1..], d, b); }
  }

  lemma {:induction false} InsertRealSorted(ds: seq<real>, d: real)
    requires Sorted(ds)
    ensures Sorted(InsertReal(ds, d)) && |InsertReal(ds, d)| == |ds| + 1
  {
    if ds != [] && d > ds[0] {
      InsertRealSorted(ds[1..], d);
      InsertRealBound(ds[1..], d, ds[0]);
    }
  }

  lemma {:induction false} InsertRealAdds(ds: seq<real>, d: real)
    ensures multiset(InsertReal(ds, d)) == multiset(ds) + multiset{d}
  {
    if ds != [] && d > ds[0] {
      InsertRealAdds(ds[1..], d);
      assert ds == [ds[0]] + ds[1..];
    }
  }

  lemma {:induction false} SortSorts(ds: seq<real>)
    ensures Sorted(Sort(ds)) && |Sort(ds)| == |ds| && multiset(Sort(ds)) == multiset(ds)
  {
    if ds != [] {
      SortSorts(ds[..|ds| - 1]);
      InsertRealSorted(Sort(ds[..|ds| - 1]), ds[|ds| - 1]);
      InsertRealAdds(Sort(ds[..|ds| - 1]), ds[|ds| - 1]);
      assert ds == ds[..|ds| - 1] + [ds[|ds| - 1]];
    }
  }

  lemma SameHead(a: seq<real>, b: seq<real>)
    requires Sorted(a) && Sorted(b) && multiset(a) == multiset(b) && a != []
    ensures b != [] && a[0] == b[0]
  {
    assert a[0] in multiset(b);
    assert b[0] in multiset(a);
    assert a[0] in b && b[0] in a;
  }

  lemma TailElements(a: seq<real>)
    requires a != []
    ensures multiset(a[1..]) == multiset(a) - multiset{a[0]}
  {
    assert a == [a[0]] + a[1..];
  }

  /** Two sorted sequences with the same elements are equal, so sorting forgets the order of arrival. */
  lemma {:induction false} SortedUnique(a: seq<real>, b: seq<real>)
    requires Sorted(a) && Sorted(b) && multiset(a) == multiset(b)
    ensures a == b
  {
    if a == [] {
      assert |multiset(b)| == 0;
    } else {
      SameHead(a, b);
      TailElements(a);
      TailElements(b);
      SortedUnique(a[1..], b[1..]);
      assert a == [a[0]] + a[1..] && b == [b[0]] + b[1..];
    }
  }

  lemma SortOrderFree(a: seq<real>, b: seq<real>)
    requires multiset(a) == multiset(b)
    ensures Sort(a) == Sort(b)
  {
    SortSorts(a);
    SortSorts(b);
    SortedUnique(Sort(a), Sort(b));
  }

  lemma {:induction false} InsertBound(h: seq<Entry>, e: Entry, b: Entry)
    requires Leq(b, e) && forall i :: 0 <= i < |h| ==> Leq(b, h[i])
    ensures forall i :: 0 <= i < |Insert(h, e)| ==> Leq(b, Insert(h, e)[i])
  {
    if h != [] && !Leq(e, h[0]) { InsertBound(h[1..], e, b); }
  }

  lemma {:induction false} InsertAscending(h: seq<Entry>, e: Entry)
    requires Ascending(h)
    ensures Ascending(Insert(h, e)) && |Insert(h, e)| == |h| + 1
  {
    if h != [] && !Leq(e, h[0]) {
      InsertAscending(h[1..], e);
      InsertBound(h[1..], e, h[0]);
    }
  }

  lemma {:induction false} InsertAdds(h: seq<Entry>, e: Entry)
    ensures multiset(Insert(h, e)) == multiset(h) + multiset{e}
  {
    if h != [] && !Leq(e, h[0]) {
      InsertAdds(h[1..], e);
      assert h == [h[0]] + h[1..];
    }
  }

  /** Pair-wise insertion, read through its distances, is insertion of the distance: ties do not matter. */
  lemma {:induction false} InsertDists(h: seq<Entry>, e: Entry)
    requires Ascending(h)
    ensures Dists(Insert(h, e)) == InsertReal(Dists(h), e.dist)
  {
    if h == [] {
    } else if Leq(e, h[0]) {
      assert Dists([e] + h) == [e.dist] + Dists(h);
    } else {
      InsertDists(h[1..], e);
      var r := Insert(h[1..], e);
      assert Dists([h[0]] + r) == [h[0].dist] + Dists(r);
      assert Dists(h)[1..] == Dists(h[1..]);
      if e.dist == h[0].dist {
        InsertFront(Dists(h)[1..], e.dist);
      }
    }
  }

  lemma InsertFront(ds: seq<real>, d: real)
    requires ds != [] ==> d <= ds[0]
    ensures InsertReal(ds, d) == [d] + ds
  {
  }

  /** Only the `k` smallest matter when one more distance is inserted. */
  lemma {:induction false} TakeInsert(ds: seq<real>, d: real, k: nat)
    requires Sorted(ds) && |ds| >= k > 0
    ensures Take(InsertReal(ds, d), k) == if d < ds[k - 1] then InsertReal(ds[..k - 1], d) else ds[..k]
  {
    InsertRealSorted(ds, d);
    if d <= ds[0] {
      assert ([d] + ds)[..k] == [d] + ds[..k - 1];
      if k > 1 { assert ds[..k - 1][0] == ds[0]; }
    } else if k == 1 {
      assert ([ds[0]] + InsertReal(ds[1..], d))[..1] == ds[..1];
    } else {
      TakeInsert(ds[1..], d, k - 1);
      InsertRealSorted(ds[1..], d);
      assert ([ds[0]] + InsertReal(ds[1..], d))[..k] == [ds[0]] + InsertReal(ds[1..], d)[..k - 1];
      assert ds[1..][..k - 2] == ds[..k - 1][1..];
      assert [ds[0]] + ds[1..][..k - 1] == ds[..k];
    }
  }

  lemma OfferStep(h: seq<Entry>, all: seq<real>, e: Entry, k: nat)
    requires k > 0 && Ascending(h) && Sorted(all) && Dists(h) == Take(all, k)
    ensures Ascending(Offer(h, e, k)) && |Offer(h, e, k)| <= k
    ensures Dists(Offer(h, e, k)) == Take(InsertReal(all, e.dist), k)
  {
    hide InsertReal, Insert;
    InsertRealSorted(all, e.dist);
    assert |Dists(h)| == |h|;
    if |h| < k {
      InsertDists(h, e);
      InsertAscending(h, e);
    } else {
      TakeInsert(all, e.dist, k);
      assert Dists(h)[k - 1] == all[k - 1];
      if e.dist < h[k - 1].dist {
        InsertDists(h[..k - 1], e);
        InsertAscending(h[..k - 1], e);
        assert Dists(h[..k - 1]) == all[..k - 1];
      }
    }
  }

  lemma OfferKeeps(h: seq<Entry>, e: Entry, k: nat)
    ensures multiset(Offer(h, e, k)) <= multiset(h) + multiset{e}
  {
    hide Insert;
    InsertAdds(h, e);
    if h != [] {
      InsertAdds(h[..|h| - 1], e);
      assert h == h[..|h| - 1] + [h[|h| - 1]];
    }
  }

  /** Which entry leaves: while there is room nothing does; then, for a strictly closer candidate, the greatest pair;
      a candidate at the distance of the worst is turned away. */
  lemma OfferReplaces(h: seq<Entry>, e: Entry, k: nat)
    requires k > 0 && Ascending(h) && |h| <= k
    ensures |h| < k ==> multiset(Offer(h, e, k)) == multiset(h) + multiset{e}
    ensures |h| == k && e.dist < h[k - 1].dist ==>
              && multiset(Offer(h, e, k)) == multiset(h) - multiset{h[k - 1]} + multiset{e}
              && forall x :: x in h ==> Leq(x, h[k - 1])
    ensures |h| == k && e.dist >= h[k - 1].dist ==> Offer(h, e, k) == h
  {
    hide Insert;
    InsertAdds(h, e);
    if |h| == k {
      InsertAdds(h[..k - 1], e);
      assert h == h[..k - 1] + [h[k - 1]];
    }
  }

  /** A heap that has been offered `es`, in any order, holds entries among them whose distances are
      exactly the `k` smallest (all, if fewer), worst last. */
  lemma {:induction false} OfferAllKeepsSmallest(es: seq<Entry>, k: nat)
    requires k > 0
    ensures Ascending(OfferAll([], es, k)) && |OfferAll([], es, k)| <= k
    ensures Dists(OfferAll([], es, k)) == Take(Sort(Dists(es)), k)
    ensures multiset(OfferAll([], es, k)) <= multiset(es)
  {
    hide Offer, InsertReal;
    if es != [] {
      var n := |es| - 1;
      OfferAllKeepsSmallest(es[..n], k);
      SortSorts(Dists(es[..n]));
      assert Dists(es)[..n] == Dists(es[..n]);
      OfferStep(OfferAll([], es[..n], k), Sort(Dists(es[..n])), es[n], k);
      OfferKeeps(OfferAll([], es[..n], k), es[n], k);
      assert es == es[..n] + [es[n]];
    }
  }

  /** `best` is the `k` smallest of `all`: as many as there are up to `k`, and nothing left out is
      smaller than anything kept. */
  ghost predicate KSmallest(best: seq<real>, all: seq<real>, k: nat) {
    && |best| == (if |all| < k then |all| else k)
    && multiset(best) <= multiset(all)
    && forall x, y :: x in best && y in multiset(all) - multiset(best) ==> x <= y
  }

  lemma TakeSortIsKSmallest(all: seq<real>, k: nat)
    ensures KSmallest(Take(Sort(all), k), all, k)
  {
    SortSorts(all);
    var s := Sort(all);
    if |s| > k {
      assert s == s[..k] + s[k..];
      assert multiset(s) - multiset(s[..k]) == multiset(s[k..]);
      forall x, y | x in s[..k] && y in multiset(s[k..])
        ensures x <= y
      {
        assert y in s[k..];
      }
    }
  }

  // ---------------------------------------------------------------- entries and their distances

  /** Split a sequence around one occurrence of `x`. */
  lemma Around<T>(b: seq<T>, x: T) returns (l: seq<T>, r: seq<T>)
    requires x in multiset(b)
    ensures b == l + [x] + r && multiset(l + r) == multiset(b) - multiset{x}
  {
    var p :| 0 <= p < |b| && b[p] == x;
    l, r := b[..p], b[p + 1..];
    assert b == l + [x] + r;
  }

  lemma SplitLast<T>(a: seq<T>)
    requires a != []
    ensures a == a[..|a| - 1] + [a[|a| - 1]] && multiset(a[..|a| - 1]) == multiset(a) - multiset{a[|a| - 1]}
  {
    assert a == a[..|a| - 1] + [a[|a| - 1]];
  }

  lemma DistsAround(l: seq<Entry>, x: Entry, r: seq<Entry>)
    ensures multiset(Dists(l + [x] + r)) == multiset(Dists(l + r)) + multiset{x.dist}
  {
    assert Dists(l + [x] + r) == Dists(l) + [x.dist] + Dists(r);
    assert Dists(l + r) == Dists(l) + Dists(r);
  }

  /** Fewer entries have fewer distances. */
  lemma {:induction false} DistsSub(a: seq<Entry>, b: seq<Entry>)
    requires multiset(a) <= multiset(b)
    ensures multiset(Dists(a)) <= multiset(Dists(b))
    decreases |a|
  {
    if a != [] {
      hide Dists;
      var n := |a| - 1;
      var x := a[n];
      SplitLast(a);
      assert x in multiset(a);
      var l, r := Around(b, x);
      DistsSub(a[..n], l + r);
      DistsAround(a[..n], x, []);
      assert a[..n] + [x] + [] == a && a[..n] + [] == a[..n];
      DistsAround(l, x, r);
    }
  }

  lemma DistsPermute(a: seq<Entry>, b: seq<Entry>)
    requires multiset(a) == multiset(b)
    ensures multiset(Dists(a)) == multiset(Dists(b))
  {
    DistsSub(a, b);
    DistsSub(b, a);
  }

  /** An entry that was left out is at least as far as every one that was kept. */
  lemma LeftOut(best: seq<Entry>, all: seq<Entry>, y: Entry, d: real, k: nat)
    requires KSmallest(Dists(best), Dists(all), k) && multiset(best) <= multiset(all)
    requires multiset(best)[y] < multiset(all)[y] && d in Dists(best)
    ensures d <= y.dist
  {
    assert multiset(best + [y]) <= multiset(all);
    DistsSub(best + [y], all);
    assert Dists(best + [y]) == Dists(best) + [y.dist];
    assert y.dist in multiset(Dists(all)) - multiset(Dists(best));
  }
}
