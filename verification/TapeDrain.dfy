/** The asynchronous part of a query: one read per probed cluster is in flight, completions arrive in
    any order and in batches of any size, and each completed slot is processed once. */
module TapeDrain {
  import opened Collections
  import opened ByteStrings
  import opened TapeRecord
  import opened TapeLayout
  import opened TapeKernel
  import opened TopK
  import opened TapeSearch

  /** Everything a query's reads depend on. */
  datatype Job = Job(rnd: real -> real, query: Query, infos: seq<ClusterInfo>, tape: seq<byte>, width: nat)

  /** Table entries lie on the tape, segments hold their records and fit a buffer slot. */
  ghost predicate Runnable(j: Job) {
    && IsRounding(j.rnd)
    && forall i :: 0 <= i < |j.infos| ==>
         && Usable(j.query, j.infos[i])
         && var s := j.infos[i].segment;
            s.byteOffset + s.lengthBytes <= |j.tape| && RECORD_BYTES * s.numVectors <= s.lengthBytes <= j.width
  }

  /** The size of the buffer pool: one slot per read. */
  function PoolSize(j: Job): nat { |j.infos| * j.width }

  ghost function SlotData(j: Job, i: nat): (data: seq<byte>)
    requires Runnable(j) && i < |j.infos|
    ensures |data| == j.infos[i].segment.lengthBytes
  {
    var s := j.infos[i].segment;
    j.tape[s.byteOffset..s.byteOffset + s.lengthBytes]
  }

  /** What the cluster of slot `i` has to offer, read straight from the tape. */
  ghost function SlotCandidates(j: Job, i: nat): seq<Entry>
    requires Runnable(j) && i < |j.infos|
  {
    Candidates(j.rnd, j.query, j.infos[i], RecordsIn(SlotData(j, i), 0, j.infos[i].segment.numVectors))
  }

  ghost predicate Slots(j: Job, slots: seq<nat>) { forall k :: 0 <= k < |slots| ==> slots[k] < |j.infos| }

  ghost function AllCandidates(j: Job, slots: seq<nat>): seq<Entry>
    requires Runnable(j) && Slots(j, slots)
  {
    if slots == [] then []
    else AllCandidates(j, slots[..|slots| - 1]) + SlotCandidates(j, slots[|slots| - 1])
  }

  /** Slot `i` of the buffer pool holds its cluster's segment. */
  ghost predicate Filled(j: Job, buffer: seq<byte>, i: nat)
    requires Runnable(j) && i < |j.infos|
  {
    && i * j.width + j.infos[i].segment.lengthBytes <= |buffer|
    && buffer[i * j.width..i * j.width + j.infos[i].segment.lengthBytes] == SlotData(j, i)
  }

  lemma Further(i: nat, k: nat, width: nat)
    requires i < k
    ensures i * width + width <= k * width
  {
    if width > 0 { MultipleIsLarge(k - i, width); }
    assert (k - i) * width == k * width - i * width;
  }

  lemma SlotsApart(i: nat, k: nat, width: nat, n: nat)
    requires i < n && k < n
    ensures i * width + width <= n * width
    ensures i < k ==> i * width + width <= k * width
  {
    Further(i, n, width);
    if i < k { Further(i, k, width); }
  }

  /** Reading into one slot leaves every other filled slot as it was. */
  lemma OtherSlotsKept(j: Job, before: seq<byte>, after: seq<byte>, i: nat, k: nat)
    requires Runnable(j) && i < |j.infos| && k < |j.infos| && i != k
    requires |before| == |after| == PoolSize(j)
    requires forall m :: 0 <= m < |after| && !(i * j.width <= m < i * j.width + j.infos[i].segment.lengthBytes)
                         ==> after[m] == before[m]
    requires Filled(j, before, k)
    ensures Filled(j, after, k)
  {
    assert j.infos[i].segment.lengthBytes <= j.width && j.infos[k].segment.lengthBytes <= j.width;
    hide SlotData, Runnable;
    var at, lo := i * j.width, k * j.width;
    var hi := lo + j.infos[k].segment.lengthBytes;
    SlotsApart(i, k, j.width, |j.infos|);
    SlotsApart(k, i, j.width, |j.infos|);
    assert hi <= at || at + j.infos[i].segment.lengthBytes <= lo;
    SameRange(before, after, lo, hi);
  }

  lemma SameRange(a: seq<byte>, b: seq<byte>, lo: nat, hi: nat)
    requires lo <= hi <= |a| && |a| == |b| && forall m :: lo <= m < hi ==> a[m] == b[m]
    ensures a[lo..hi] == b[lo..hi]
  {
  }

  /** A filled slot yields the candidates that are on the tape. */
  lemma FilledCandidates(j: Job, buffer: seq<byte>, i: nat)
    requires Runnable(j) && i < |j.infos| && |buffer| == PoolSize(j) && Filled(j, buffer, i)
    ensures var n := j.infos[i].segment.numVectors;
            && i * j.width + RECORD_BYTES * n <= |buffer|
            && Candidates(j.rnd, j.query, j.infos[i], RecordsIn(buffer, i * j.width, n)) == SlotCandidates(j, i)
  {
    hide Candidates, SlotData, RecordsIn, PoolSize;
    SameRecords(buffer, i * j.width, SlotData(j, i), j.infos[i].segment.numVectors);
  }

  lemma SameRecords(buffer: seq<byte>, at: nat, data: seq<byte>, n: nat)
    requires at + |data| <= |buffer| && buffer[at..at + |data|] == data && RECORD_BYTES * n <= |data|
    ensures RecordsIn(buffer, at, n) == RecordsIn(data, 0, n)
  {
    hide Decode;
    forall v | 0 <= v < n
      ensures RecordsIn(buffer, at, n)[v] == RecordsIn(data, 0, n)[v]
    {
      SubSlice(buffer, at, data, RECORD_BYTES * v, RECORD_BYTES * v + RECORD_BYTES);
    }
  }

  // ---------------------------------------------------------------- the completion ring

  /** Where position `p` lies in a ring. */
  function Index(p: nat, size: nat): (i: nat)
    requires size > 0
    ensures i < size
  {
    p % size
  }

  /** Two positions of a ring that are less than its size apart are different entries. */
  lemma DifferentEntries(a: nat, b: nat, size: nat)
    requires a < b < a + size
    ensures Index(a, size) != Index(b, size)
  {
    var p, q := a / size, b / size;
    assert a == p * size + a % size && b == q * size + b % size;
    assert (q - p) * size == q * size - p * size;
    MultipleIsLarge(q - p, size);
  }

  /** The completion ring: entries are addressed by counters that only grow, modulo its size. The kernel
      posts at `tail`, the program releases at `head`. Of the completions posted since a query began,
      at position `base`, none is overwritten as long as they fit the ring, released or not. */
  class CompletionRing {
    const entries: array<nat>
    var head: nat
    var tail: nat
    ghost var base: nat
    ghost var posted: seq<nat>

    constructor (size: nat)
      ensures entries.Length == size && head == tail && fresh(entries)
    {
      entries := new nat[size](_ => 0);
      head, tail, base, posted := 0, 0, 0, [];
    }

    ghost predicate Valid()
      reads this, entries
      ensures Valid() ==> base <= head <= tail == base + |posted|
    {
      && base <= head <= tail == base + |posted| && |posted| <= entries.Length
      && forall k :: 0 <= k < |posted| ==> entries[Index(base + k, entries.Length)] == posted[k]
    }

    /** Posted and not yet released, in order of arrival. */
    ghost function Waiting(): (cq: seq<nat>)
      requires Valid()
      reads this, entries
      ensures |cq| == tail - head
    {
      posted[head - base..]
    }

    /** A query begins on an empty ring. */
    ghost method Begin()
      requires head == tail
      modifies this`base, this`posted
      ensures Valid() && Waiting() == posted == []
    {
      base, posted := tail, [];
    }

    /** A completion is posted over the oldest entry. */
    method Post(slot: nat)
      requires Valid() && |posted| < entries.Length
      modifies this`tail, this`posted, entries
      ensures Valid() && posted == old(posted) + [slot] && Waiting() == old(Waiting()) + [slot]
    {
      entries[Index(tail, entries.Length)] := slot;
      forall k | 0 <= k < |posted|
        ensures entries[Index(base + k, entries.Length)] == posted[k]
      {
        DifferentEntries(base + k, tail, entries.Length);
      }
      tail := tail + 1;
      posted := posted + [slot];
    }

    /** The positions of the waiting entries, never more than are still expected. */
    method Reap(remaining: nat) returns (batch: seq<nat>)
      requires Valid() && head < tail && remaining > 0
      ensures 1 <= |batch| <= remaining && |batch| <= tail - head
      ensures forall k :: 0 <= k < |batch| ==> batch[k] == head + k
      ensures forall k :: 0 <= k < |batch| ==> base <= batch[k] < tail && posted[batch[k] - base] == Waiting()[k]
      ensures tail - head <= remaining ==> |batch| == tail - head
    {
      batch := [];
      var p := head;
      while p < tail
        invariant p == head + |batch| <= tail && |batch| < remaining
        invariant forall k :: 0 <= k < |batch| ==> batch[k] == head + k
      {
        batch := batch + [p];
        p := p + 1;
        if |batch| >= remaining { break; }
      }
    }

    /** Release the first `n` entries. */
    method Advance(n: nat)
      requires Valid() && head + n <= tail
      modifies this`head
      ensures Valid() && head == old(head) + n && Waiting() == old(Waiting())[n..]
    {
      head := head + n;
    }

    /** What an entry of this query holds, whether it has been released or not. */
    method EntryAt(p: nat) returns (slot: nat)
      requires Valid() && base <= p < tail
      ensures slot == posted[p - base]
    {
      assert entries[Index(base + (p - base), entries.Length)] == posted[p - base];
      slot := entries[Index(p, entries.Length)];
    }
  }

  /** The smallest power of two that is at least `v`. */
  method NextPow2(v: nat) returns (p: nat)
    ensures v <= p && (p == 1 || p < 2 * v)
  {
    p := 1;
    while p < v
      invariant p == 1 || p < 2 * v
      decreases v - p
    {
      p := p * 2;
    }
  }

  /** The size of the completion ring: twice the submission depth, which is clamped. For every number of probes
      that the program accepts it has room for all completions of a query. */
  method RingSize(probes: nat) returns (size: nat)
    requires 1 <= probes <= 10000
    ensures probes <= size
  {
    var depth := NextPow2(if probes < 64 then 64 else probes);
    if depth > 16384 {
      depth := 16384;
    }
    size := 2 * depth;
  }

  // ---------------------------------------------------------------- the completion loop

  /** The ring: reads still outstanding, and completions waiting in order of arrival. A waiting
      completion's slot is filled. */
  ghost predicate Ring(j: Job, outstanding: set<nat>, cq: seq<nat>, buffer: seq<byte>)
    requires Runnable(j)
  {
    && |buffer| == PoolSize(j)
    && (forall i :: i in outstanding ==> i < |j.infos|)
    && (forall k :: 0 <= k < |cq| ==> cq[k] < |j.infos| && cq[k] !in outstanding && Filled(j, buffer, cq[k]))
    && Distinct(cq)
  }

  /** Any number of outstanding reads complete, in any order - at least one if the caller waits and
      nothing is waiting. Slots that were filled before stay filled. */
  method Arrive(j: Job, buffer: array<byte>, wait: bool, outstanding: set<nat>, ring: CompletionRing)
    returns (outstanding': set<nat>)
    requires Runnable(j) && ring.Valid() && Ring(j, outstanding, ring.Waiting(), buffer[..])
    requires |ring.posted| + |outstanding| <= ring.entries.Length
    modifies buffer, ring`tail, ring`posted, ring.entries
    ensures ring.Valid() && Ring(j, outstanding', ring.Waiting(), buffer[..]) && old(ring.posted) <= ring.posted
    ensures |outstanding'| + |ring.posted| == |outstanding| + |old(ring.posted)| && outstanding' <= outstanding
    ensures wait && |outstanding| + |old(ring.Waiting())| > 0 ==> ring.Waiting() != []
    ensures forall i: nat :: i in outstanding || i in old(ring.Waiting()) <==> i in outstanding' || i in ring.Waiting()
    ensures StillFilled(j, outstanding, old(buffer[..]), buffer[..])
  {
    outstanding' := outstanding;
    var more: bool := *;
    while outstanding' != {} && ((wait && ring.head == ring.tail) || more)
      invariant ring.Valid() && Ring(j, outstanding', ring.Waiting(), buffer[..]) && outstanding' <= outstanding
      invariant old(ring.posted) <= ring.posted && |outstanding'| + |ring.posted| == |outstanding| + |old(ring.posted)|
      invariant forall i: nat :: i in outstanding || i in old(ring.Waiting()) <==> i in outstanding' || i in ring.Waiting()
      invariant StillFilled(j, outstanding, old(buffer[..]), buffer[..])
      decreases |outstanding'|
    {
      hide Filled, PoolSize, Index;
      var slot :| slot in outstanding';
      ghost var cq := ring.Waiting();
      ArriveOne(j, buffer, slot, outstanding', cq);
      ring.Post(slot);
      outstanding' := outstanding' - {slot};
      more := *;
    }
  }

  /** No slot outside `outstanding` has lost its segment. */
  ghost predicate StillFilled(j: Job, outstanding: set<nat>, before: seq<byte>, after: seq<byte>)
    requires Runnable(j)
  {
    forall k: nat :: k < |j.infos| && k !in outstanding && Filled(j, before, k) ==> Filled(j, after, k)
  }

  method ArriveOne(j: Job, buffer: array<byte>, slot: nat, ghost outstanding: set<nat>, ghost cq: seq<nat>)
    requires Runnable(j) && Ring(j, outstanding, cq, buffer[..]) && slot in outstanding
    modifies buffer
    ensures Ring(j, outstanding - {slot}, cq + [slot], buffer[..])
    ensures StillFilled(j, outstanding, old(buffer[..]), buffer[..])
  {
    hide SlotData;
    SlotsApart(slot, slot, j.width, |j.infos|);
    ghost var before := buffer[..];
    var s := j.infos[slot].segment;
    var data := j.tape[s.byteOffset..s.byteOffset + s.lengthBytes];
    assert data == SlotData(j, slot) by { TapeSlice(j, slot); }
    CopyInto(buffer, slot * j.width, data);
    assert Filled(j, buffer[..], slot) by {
      assert buffer[..][slot * j.width..slot * j.width + |data|] == buffer[slot * j.width..slot * j.width + |data|];
    }
    forall k: nat | k < |j.infos| && k !in outstanding && Filled(j, before, k)
      ensures Filled(j, buffer[..], k)
    {
      OtherSlotsKept(j, before, buffer[..], slot, k);
    }
    hide Filled;
  }

  lemma TapeSlice(j: Job, i: nat)
    requires Runnable(j) && i < |j.infos|
    ensures var s := j.infos[i].segment; SlotData(j, i) == j.tape[s.byteOffset..s.byteOffset + s.lengthBytes]
  {
  }

  /** Process one completed slot. */
  method ProcessSlot(j: Job, s: Searcher, buffer: array<byte>, slot: nat, ghost order: seq<nat>)
    requires Runnable(j) && Slots(j, order) && buffer.Length == PoolSize(j)
    requires slot < |j.infos| && Filled(j, buffer[..], slot)
    requires s.HeapOk() && s.topK == OfferAll([], AllCandidates(j, order), TOP)
    modifies s
    ensures Slots(j, order + [slot])
    ensures s.HeapOk() && s.topK == OfferAll([], AllCandidates(j, order + [slot]), TOP)
  {
    hide OfferAll, AllCandidates, Filled, SlotCandidates, Candidates, RecordsIn;
    FilledCandidates(j, buffer[..], slot);
    Appended(j, order, slot);
    s.ProcessCluster(j.rnd, j.query, j.infos[slot], buffer, slot * j.width);
  }

  /** Process the collected completions one after another, while further reads arrive. The entries are read
      only now, after they have been released. */
  method ProcessBatch(j: Job, s: Searcher, buffer: array<byte>, ring: CompletionRing, batch: seq<nat>, outstanding: set<nat>,
                      ghost slots: seq<nat>, ghost order: seq<nat>) returns (outstanding': set<nat>)
    requires Runnable(j) && Slots(j, order) && ring.Valid() && Ring(j, outstanding, ring.Waiting(), buffer[..])
    requires |ring.posted| + |outstanding| <= ring.entries.Length
    requires |slots| == |batch| && forall k :: 0 <= k < |batch| ==>
               && ring.base <= batch[k] < ring.tail && slots[k] == ring.posted[batch[k] - ring.base]
               && slots[k] < |j.infos| && slots[k] !in outstanding && Filled(j, buffer[..], slots[k])
    requires s.HeapOk() && s.topK == OfferAll([], AllCandidates(j, order), TOP)
    modifies s, buffer, ring`tail, ring`posted, ring.entries
    ensures ring.Valid() && Ring(j, outstanding', ring.Waiting(), buffer[..])
    ensures |outstanding'| + |ring.posted| == |outstanding| + |old(ring.posted)|
    ensures forall i: nat :: i in outstanding || i in old(ring.Waiting()) <==> i in outstanding' || i in ring.Waiting()
    ensures Slots(j, order + slots)
    ensures s.HeapOk() && s.topK == OfferAll([], AllCandidates(j, order + slots), TOP)
  {
    hide OfferAll, AllCandidates, Filled, Runnable, SlotData, PoolSize, Index;
    outstanding' := outstanding;
    assert order + slots[..0] == order;
    for b := 0 to |batch|
      invariant ring.Valid() && Ring(j, outstanding', ring.Waiting(), buffer[..]) && outstanding' <= outstanding
      invariant old(ring.posted) <= ring.posted && |outstanding'| + |ring.posted| == |outstanding| + |old(ring.posted)|
      invariant forall i: nat :: i in outstanding || i in old(ring.Waiting()) <==> i in outstanding' || i in ring.Waiting()
      invariant forall k :: b <= k < |batch| ==> Filled(j, buffer[..], slots[k])
      invariant s.HeapOk() && s.topK == OfferAll([], AllCandidates(j, order + slots[..b]), TOP)
    {
      var slot := ring.EntryAt(batch[b]);
      assert slot == slots[b];
      ProcessSlot(j, s, buffer, slot, order + slots[..b]);
      assert order + slots[..b + 1] == order + slots[..b] + [slots[b]];
      outstanding' := Arrive(j, buffer, false, outstanding', ring);
    }
    assert order + slots[..|batch|] == order + slots;
  }

  /** Slots `0 .. n`: one read submitted per probed cluster. */
  function Submitted(n: nat): (r: set<nat>)
    ensures |r| == n && forall i: nat :: i in r <==> i < n
  {
    if n == 0 then {} else Submitted(n - 1) + {n - 1}
  }

  /** Taking a batch off the front keeps the ring, and the batch is disjoint from what is left. */
  lemma RingAdvance(j: Job, outstanding: set<nat>, cq: seq<nat>, buffer: seq<byte>, n: nat, order: seq<nat>)
    requires Runnable(j) && Ring(j, outstanding, cq, buffer) && n <= |cq|
    requires Distinct(order) && forall k :: 0 <= k < |order| ==> order[k] !in outstanding && order[k] !in cq
    ensures Ring(j, outstanding, cq[n..], buffer)
    ensures Distinct(order + cq[..n])
    ensures var order' := order + cq[..n];
            forall k :: 0 <= k < |order'| ==> order'[k] !in outstanding && order'[k] !in cq[n..]
  {
    hide Filled;
    var order' := order + cq[..n];
    forall k | 0 <= k < |order'|
      ensures order'[k] !in outstanding && order'[k] !in cq[n..]
    {
      if k >= |order| {
        assert order'[k] == cq[k - |order|];
      }
    }
    forall i, k | 0 <= i < k < |order'|
      ensures order'[i] != order'[k]
    {
      if i < |order| && k >= |order| {
        assert order'[k] == cq[k - |order|];
      }
    }
  }

  /** Drain the ring for one query. Each submitted slot is processed exactly once, in the order
      `order`, and the heap ends as if all their candidates had been offered in that order. The ring is
      left empty for the next query. */
  method Drain(j: Job, s: Searcher, buffer: array<byte>, ring: CompletionRing) returns (ghost order: seq<nat>)
    requires Runnable(j) && buffer.Length == PoolSize(j) && s.topK == []
    requires ring.head == ring.tail && |j.infos| <= ring.entries.Length
    modifies s, buffer, ring, ring.entries
    ensures |order| == |j.infos| && Slots(j, order) && Distinct(order)
    ensures s.HeapOk() && s.topK == OfferAll([], AllCandidates(j, order), TOP)
    ensures ring.head == ring.tail
  {
    hide PoolSize, Submitted, AllCandidates, Ring, OfferAll, Runnable, Expected, Index;
    hide CompletionRing.Valid, CompletionRing.Waiting, Distinct, Slots;
    RingStart(j, buffer[..]);
    NoCandidates(j);
    OfferNone(TOP);
    ring.Begin();
    order := DrainAll(j, s, buffer, ring);
  }

  /** From the submission of all reads to the last completion. */
  method DrainAll(j: Job, s: Searcher, buffer: array<byte>, ring: CompletionRing) returns (ghost order: seq<nat>)
    requires Runnable(j) && ring.Valid() && Ring(j, Submitted(|j.infos|), ring.Waiting(), buffer[..])
    requires Expected(j, Submitted(|j.infos|), ring.posted, ring.Waiting(), [], |j.infos|)
    requires |j.infos| <= ring.entries.Length
    requires s.HeapOk() && s.topK == OfferAll([], AllCandidates(j, []), TOP)
    modifies s, buffer, ring, ring.entries
    ensures |order| == |j.infos| && Slots(j, order) && Distinct(order)
    ensures s.HeapOk() && s.topK == OfferAll([], AllCandidates(j, order), TOP)
    ensures ring.head == ring.tail
  {
    hide PoolSize, Submitted, AllCandidates, Ring, OfferAll, Runnable, Expected, Index;
    hide CompletionRing.Valid, CompletionRing.Waiting, Searcher.HeapOk;
    var outstanding := Submitted(|j.infos|);
    var remaining: nat := |j.infos|;
    order := [];
    while remaining > 0
      invariant ring.Valid() && Ring(j, outstanding, ring.Waiting(), buffer[..])
      invariant Expected(j, outstanding, ring.posted, ring.Waiting(), order, remaining) && Slots(j, order)
      invariant s.HeapOk() && s.topK == OfferAll([], AllCandidates(j, order), TOP)
    {
      outstanding, remaining, order := DrainRound(j, s, buffer, ring, outstanding, remaining, order);
    }
    NoneExpected(j, outstanding, ring.posted, ring.Waiting(), order);
  }

  lemma NoneExpected(j: Job, outstanding: set<nat>, posted: seq<nat>, cq: seq<nat>, order: seq<nat>)
    requires Expected(j, outstanding, posted, cq, order, 0)
    ensures |order| == |j.infos| && Slots(j, order) && Distinct(order) && |cq| == 0
  {
  }

  /** Every read is outstanding, waiting or processed, and no two of these. */
  ghost predicate Expected(j: Job, outstanding: set<nat>, posted: seq<nat>, cq: seq<nat>, order: seq<nat>, remaining: nat) {
    && |outstanding| + |posted| == |j.infos|
    && |outstanding| + |cq| == remaining == |j.infos| - |order|
    && Slots(j, order) && Distinct(order)
    && forall k :: 0 <= k < |order| ==> order[k] !in outstanding && order[k] !in cq
  }

  /** Wait for a completion, take all that are there, release them, process them. */
  method DrainRound(j: Job, s: Searcher, buffer: array<byte>, ring: CompletionRing, outstanding: set<nat>, remaining: nat,
                    ghost order: seq<nat>) returns (outstanding': set<nat>, remaining': nat, ghost order': seq<nat>)
    requires Runnable(j) && ring.Valid() && Ring(j, outstanding, ring.Waiting(), buffer[..])
    requires remaining > 0 && Expected(j, outstanding, ring.posted, ring.Waiting(), order, remaining)
    requires |j.infos| <= ring.entries.Length
    requires s.HeapOk() && s.topK == OfferAll([], AllCandidates(j, order), TOP)
    modifies s, buffer, ring`head, ring`tail, ring`posted, ring.entries
    ensures ring.Valid() && Ring(j, outstanding', ring.Waiting(), buffer[..])
    ensures remaining' < remaining && Expected(j, outstanding', ring.posted, ring.Waiting(), order', remaining')
    ensures Slots(j, order')
    ensures s.HeapOk() && s.topK == OfferAll([], AllCandidates(j, order'), TOP)
  {
    hide OfferAll, AllCandidates, Filled, Runnable, PoolSize, CompletionRing.Valid, CompletionRing.Waiting;
    outstanding' := Arrive(j, buffer, true, outstanding, ring);
    var batch := ring.Reap(remaining);
    ghost var cq := ring.Waiting();
    ghost var slots := cq[..|batch|];
    RingAdvance(j, outstanding', cq, buffer[..], |batch|, order);
    ring.Advance(|batch|);
    remaining' := remaining - |batch|;
    outstanding' := ProcessBatch(j, s, buffer, ring, batch, outstanding', slots, order);
    order' := order + slots;
  }

  lemma RingStart(j: Job, buffer: seq<byte>)
    requires Runnable(j) && |buffer| == PoolSize(j)
    ensures Ring(j, Submitted(|j.infos|), [], buffer) && Expected(j, Submitted(|j.infos|), [], [], [], |j.infos|)
  {
  }

  lemma NoCandidates(j: Job)
    requires Runnable(j)
    ensures AllCandidates(j, []) == []
  {
  }

  lemma Appended(j: Job, order: seq<nat>, slot: nat)
    requires Runnable(j) && Slots(j, order) && slot < |j.infos|
    ensures OfferAll([], AllCandidates(j, order + [slot]), TOP)
            == OfferAll(OfferAll([], AllCandidates(j, order), TOP), SlotCandidates(j, slot), TOP)
  {
    assert (order + [slot])[..|order|] == order;
    OfferAllConcat([], AllCandidates(j, order), SlotCandidates(j, slot), TOP);
  }
}
