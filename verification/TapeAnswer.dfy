/** The answer of a query does not depend on when its reads complete. */
module TapeAnswer {
  import opened Collections
  import opened TopK
  import opened TapeSearch
  import opened TapeDrain

  /** Slots in submission order. */
  function InOrder(n: nat): (s: seq<nat>)
    ensures |s| == n && forall i :: 0 <= i < n ==> s[i] == i
  {
    seq(n, i => i)
  }

  lemma {:induction false} AllCandidatesConcat(j: Job, a: seq<nat>, b: seq<nat>)
    requires Runnable(j) && Slots(j, a) && Slots(j, b)
    ensures AllCandidates(j, a + b) == AllCandidates(j, a) + AllCandidates(j, b)
    decreases |b|
  {
    hide Runnable, SlotCandidates;
    if b == [] {
      assert a + b == a;
      NoCandidates(j);
    } else {
      var n := |b| - 1;
      assert (a + b)[..|a + b| - 1] == a + b[..n];
      AllCandidatesConcat(j, a, b[..n]);
    }
  }

  lemma CandidatesAround(j: Job, l: seq<nat>, x: nat, r: seq<nat>)
    requires Runnable(j) && Slots(j, l) && Slots(j, r) && x < |j.infos|
    ensures Slots(j, l + r) && Slots(j, l + [x] + r)
    ensures multiset(AllCandidates(j, l + [x] + r)) == multiset(AllCandidates(j, l + r)) + multiset(SlotCandidates(j, x))
  {
    hide Runnable, SlotCandidates, AllCandidates;
    AllCandidatesConcat(j, l, r);
    AllCandidatesConcat(j, l + [x], r);
    assert (l + [x])[..|l|] == l;
    LastSlot(j, l + [x]);
    Rearranged(AllCandidates(j, l), SlotCandidates(j, x), AllCandidates(j, r));
  }

  lemma Rearranged(a: seq<Entry>, b: seq<Entry>, c: seq<Entry>)
    ensures multiset((a + b) + c) == multiset(a + c) + multiset(b)
  {
  }

  /** Reordering the slots reorders the candidates and nothing more. */
  lemma {:induction false} AllCandidatesPermute(j: Job, a: seq<nat>, b: seq<nat>)
    requires Runnable(j) && Slots(j, a) && Slots(j, b) && multiset(a) == multiset(b)
    ensures multiset(AllCandidates(j, a)) == multiset(AllCandidates(j, b))
    decreases |a|
  {
    hide Runnable, SlotCandidates, AllCandidates, Slots;
    if a == [] {
      assert |multiset(b)| == 0;
    } else {
      var n := |a| - 1;
      var x := a[n];
      var l, r := Around(b, x);
      SplitLast(a);
      SlotsAround(j, l, x, r);
      CandidatesAround(j, l, x, r);
      LastSlot(j, a);
      AllCandidatesPermute(j, a[..n], l + r);
    }
  }

  lemma SlotsAround(j: Job, l: seq<nat>, x: nat, r: seq<nat>)
    requires Slots(j, l + [x] + r)
    ensures Slots(j, l) && Slots(j, r) && x < |j.infos|
  {
    var b := l + [x] + r;
    assert b[|l|] == x;
    assert forall k :: 0 <= k < |l| ==> l[k] == b[k];
    assert forall k :: 0 <= k < |r| ==> r[k] == b[|l| + 1 + k];
  }

  lemma LastSlot(j: Job, a: seq<nat>)
    requires Runnable(j) && Slots(j, a) && a != []
    ensures Slots(j, a[..|a| - 1]) && a[|a| - 1] < |j.infos|
    ensures AllCandidates(j, a) == AllCandidates(j, a[..|a| - 1]) + SlotCandidates(j, a[|a| - 1])
  {
  }

  lemma {:induction false} DistinctCounts(s: seq<nat>, x: nat)
    requires Distinct(s)
    ensures multiset(s)[x] == if x in s then 1 else 0
  {
    if s != [] {
      var n := |s| - 1;
      DistinctCounts(s[..n], x);
      assert s == s[..n] + [s[n]];
    }
  }

  ghost function Elements(s: seq<nat>): (e: set<nat>)
    ensures forall x: nat :: x in e <==> x in s
    ensures Distinct(s) ==> |e| == |s|
  {
    if s == [] then {}
    else
      SplitLast(s);
      Elements(s[..|s| - 1]) + {s[|s| - 1]}
  }

  /** `n` distinct slots below `n` are all of them. */
  lemma AllSlotsOnce(order: seq<nat>, n: nat)
    requires |order| == n && Distinct(order) && forall k :: 0 <= k < n ==> order[k] < n
    ensures multiset(order) == multiset(InOrder(n))
  {
    var seen, all := Elements(order), Submitted(n);
    assert seen <= all;
    assert |all - seen| == |all| - |seen|;
    assert all == seen + (all - seen);
    forall x: nat
      ensures multiset(order)[x] == multiset(InOrder(n))[x]
    {
      DistinctCounts(order, x);
      DistinctCounts(InOrder(n), x);
      assert x in order <==> x in all;
      assert x < n ==> InOrder(n)[x] == x;
    }
  }

  /** Whatever the completion order and batching, the ten distances a query ends with are the ten
      smallest (or all, if fewer) among all records of the probed clusters that pass the Hamming filter,
      in ascending order; every entry is one of those records. */
  lemma AnswerIsOrderFree(j: Job, order: seq<nat>)
    requires Runnable(j) && |order| == |j.infos| && Slots(j, order) && Distinct(order)
    ensures var all := AllCandidates(j, InOrder(|j.infos|));
            var answer := OfferAll([], AllCandidates(j, order), TOP);
            && Dists(answer) == Take(Sort(Dists(all)), TOP)
            && KSmallest(Dists(answer), Dists(all), TOP)
            && multiset(answer) <= multiset(all)
  {
    hide Runnable, OfferAll, AllCandidates, Sort, KSmallest;
    var n := |j.infos|;
    AllSlotsOnce(order, n);
    AllCandidatesPermute(j, order, InOrder(n));
    var all, got := AllCandidates(j, InOrder(n)), AllCandidates(j, order);
    DistsPermute(got, all);
    SortOrderFree(Dists(got), Dists(all));
    OfferAllKeepsSmallest(got, TOP);
    TakeSortIsKSmallest(Dists(all), TOP);
  }
}
