/** Whole runs of the free space map by sequential callers: recovery, allocation and release in any order, each
    call finished before the next begins. What overlapping calls can do is in `FsmUniqueness` and `FsmHazards`. */
module FsmRuns {
  import opened Collections
  import opened FsmLayout
  import opened FsmSpec

  // ---------------------------------------------------------------- recovery

  /** `load_state` on any stored bitmap: the counter is one past the highest used ID seen, and the queue
      holds distinct free IDs below it - all of them, if they fit. Failed reads of the blocks below `lo`
      only shrink what is seen. A scan for blocks that ends early is harmless if and only if no used ID
      lies beyond it. */
  lemma LoadOutcome(blocks: Blocks, n: nat, lo: nat)
    requires WellFormed(blocks) && Stored(blocks, n) && 0 < n <= BLOCK_SIZE_IDS
    ensures var s := Load(blocks, n, lo);
            var last := LastUsed(blocks, lo * BLOCK_SIZE_IDS, n * BLOCK_SIZE_IDS);
            && (Valid(s) <==> Within(blocks, n)) && s.blocks == blocks && s.maxBlock == n - 1
            && s.nextId == (last + 1) % U32_LIMIT
            && (forall q :: q in s.queue ==> lo * BLOCK_SIZE_IDS <= q < last && !Used(blocks, q))
            && (last >= 0 && |FreeIdsDown(blocks, lo * BLOCK_SIZE_IDS, last)| <= FAST_SIZE ==>
                  forall x: nat :: lo * BLOCK_SIZE_IDS <= x < last && !Used(blocks, x) ==> x in s.queue)
  {
    var s := Load(blocks, n, lo);
    var from := lo * BLOCK_SIZE_IDS;
    var last := LastUsed(blocks, from, n * BLOCK_SIZE_IDS);
    LastUsedIsLast(blocks, from, n * BLOCK_SIZE_IDS);
    hide Used, BlockKey;
    if last >= 0 {
      var free := FreeIdsDown(blocks, from, last);
      FreeIdsDownMembers(blocks, from, last);
      assert forall q :: q in s.queue ==> q in free;
    }
  }

  /** The recovered queue holds the highest free IDs below the highest used one, highest first, and at
      most 1024. */
  lemma LoadOrder(blocks: Blocks, n: nat, lo: nat)
    requires n > 0
    ensures var queue := Load(blocks, n, lo).queue;
            var last := LastUsed(blocks, lo * BLOCK_SIZE_IDS, n * BLOCK_SIZE_IDS);
            && |queue| <= 1024 && (forall i, j :: 0 <= i < j < |queue| ==> queue[i] > queue[j])
            && (forall x: nat :: lo * BLOCK_SIZE_IDS <= x < last && !Used(blocks, x) && x !in queue ==>
                  |queue| == 1024 && forall q :: q in queue ==> q > x)
  {
    var from := lo * BLOCK_SIZE_IDS;
    var last := LastUsed(blocks, from, n * BLOCK_SIZE_IDS);
    if last >= 0 {
      var free := FreeIdsDown(blocks, from, last);
      FreeIdsDownMembers(blocks, from, last);
      FreeIdsDownOrder(blocks, from, last);
      hide Used, FreeIdsDown, LastUsed;
      forall x: nat | from <= x < last && !Used(blocks, x) && x !in Load(blocks, n, lo).queue
        ensures |Load(blocks, n, lo).queue| == 1024 && forall q :: q in Load(blocks, n, lo).queue ==> q > x
      {
        var i :| 0 <= i < |free| && free[i] == x;
      }
    }
  }

  /** Reuse is first in, first out: with `k` IDs queued and minted, the next `k` allocations return them in order. */
  lemma {:induction false} ReusesInOrder(s: State, k: nat)
    requires Valid(s) && k < |s.queue| && forall i :: 0 <= i <= k ==> s.queue[i] < s.nextId
    ensures var s' := Run(s, seq(k, _ => Next));
            s'.queue == s.queue[k..] && s'.nextId == s.nextId && NextId(s').1 == Ok(s.queue[k])
  {
    hide Used, Step;
    if k > 0 {
      ReusesInOrder(s, k - 1);
      assert seq(k, _ => Next)[..k - 1] == seq(k - 1, _ => Next);
      PopsHead(Run(s, seq(k - 1, _ => Next)));
    }
    PopsHead(Run(s, seq(k, _ => Next)));
  }

  lemma PopsHead(s: State)
    requires Valid(s)
    ensures s.queue != [] && s.queue[0] < s.nextId ==>
              && NextId(s).1 == Ok(s.queue[0])
              && Step(s, Next).queue == s.queue[1..] && Step(s, Next).nextId == s.nextId
  {
    if s.queue != [] {
      TakeQueuedOutcome(s);
      assert NextId(s) == TakeQueued(s);
    }
  }

  lemma UsedIsStored(blocks: Blocks, n: nat, x: nat)
    requires Within(blocks, n) && Used(blocks, x)
    ensures x < n * BLOCK_SIZE_IDS
  {
    assert BlockOf(x) < n;
  }

  /** With every read succeeding, the recovered counter is past every used ID. */
  lemma LoadTight(blocks: Blocks, n: nat)
    requires WellFormed(blocks) && Covers(blocks, n) && 0 < n <= BLOCK_SIZE_IDS
    requires !Used(blocks, U32_MAX)
    ensures Tight(Load(blocks, n, 0))
    ensures var s := Load(blocks, n, 0);
            (s.nextId == 0 && forall x: nat :: !Used(blocks, x)) || (s.nextId > 0 && Used(blocks, s.nextId - 1))
    ensures forall q :: q in Load(blocks, n, 0).queue ==> q < Load(blocks, n, 0).nextId
  {
    hide Valid, WellFormed, Within, Stored, WholeBlocks, Used, LastUsed, FreeIdsDown, Load;
    LoadOutcome(blocks, n, 0);
    var last := LastUsed(blocks, 0, n * BLOCK_SIZE_IDS);
    LastUsedIsLast(blocks, 0, n * BLOCK_SIZE_IDS);
    assert last + 1 < U32_LIMIT;
    assert Load(blocks, n, 0).nextId == last + 1;
    forall x: nat | Used(blocks, x)
      ensures x <= last
    {
      UsedIsStored(blocks, n, x);
    }
  }

  /** Opening a map over blocks that some map left behind, with every read succeeding. */
  function Reopened(blocks: Blocks): State
    requires BlockKey(0) in blocks
  {
    FirstMissingIs(blocks, 1);
    Load(blocks, FirstMissing(blocks, 0), 0)
  }

  lemma ReopenedOutcome(s: State)
    requires Valid(s)
    ensures BlockKey(0) in s.blocks
    ensures Valid(Reopened(s.blocks)) && Reopened(s.blocks).blocks == s.blocks
    ensures s.maxBlock <= Reopened(s.blocks).maxBlock
    ensures Reopened(s.blocks) == Load(s.blocks, FirstMissing(s.blocks, 0), 0)
    ensures !Used(s.blocks, U32_MAX) ==> Tight(Reopened(s.blocks))
  {
    assert BlockKey(0) in s.blocks;
    hide Used, BlockKey, BlockOf;
    ScanCovers(s.blocks, s.maxBlock + 1);
    var n := FirstMissing(s.blocks, 0);
    LoadOutcome(s.blocks, n, 0);
    hide Load, Valid;
    if !Used(s.blocks, U32_MAX) {
      LoadTight(s.blocks, n);
    }
  }

  // ---------------------------------------------------------------- runs

  /** Operations on a working store; restarts whose reads fail are part of `FsmProtocol`. */
  datatype Op = Next | Release(id: nat) | Restart

  ghost function Step(s: State, op: Op): State
    requires Valid(s)
  {
    match op
    case Next => NextId(s).0
    case Release(id) => Mark(s, id, false).0
    case Restart => Reopened(s.blocks)
  }

  lemma StepValid(s: State, op: Op)
    requires Valid(s)
    ensures Valid(Step(s, op))
  {
    match op
    case Next => NextIdOutcome(s);
    case Release(id) => MarkOutcome(s, id, false);
    case Restart => ReopenedOutcome(s);
  }

  ghost function Run(s: State, ops: seq<Op>): (s': State)
    requires Valid(s)
    ensures Valid(s')
    decreases |ops|
  {
    if ops == [] then s
    else
      var before := Run(s, ops[..|ops| - 1]);
      StepValid(before, ops[|ops| - 1]);
      Step(before, ops[|ops| - 1])
  }

  lemma RunStep(s: State, ops: seq<Op>, i: nat)
    requires Valid(s) && i < |ops|
    ensures Run(s, ops[..i + 1]) == Step(Run(s, ops[..i]), ops[i])
  {
    hide Step, Valid;
    assert ops[..i + 1][..i] == ops[..i];
  }

  lemma FreshIsValid()
    ensures Valid(Fresh) && Tight(Fresh) && Aligned(Fresh)
    ensures forall x: nat :: !Used(Fresh.blocks, x)
  {
    CreatedKeeps(map[]);
    CreatedOutcome(map[]);
  }

  /** No operation other than a release of `id` makes `id` unused: not an allocation, not an
      expansion, not a restart. */
  lemma StepKeepsUsed(s: State, op: Op, id: nat)
    requires Valid(s) && Used(s.blocks, id) && op != Release(id)
    ensures Used(Step(s, op).blocks, id)
  {
    match op
    case Next => NextIdOutcome(s);
    case Release(other) => MarkOutcome(s, other, false);
    case Restart =>
  }

  lemma {:induction false} RunKeepsUsed(s: State, ops: seq<Op>, i: nat, id: nat)
    requires Valid(s) && i <= |ops| && Used(Run(s, ops[..i]).blocks, id)
    requires Release(id) !in ops[i..]
    ensures Used(Run(s, ops).blocks, id)
    decreases |ops|
  {
    hide Step;
    var n := |ops|;
    if i == n {
      assert ops[..i] == ops;
    } else {
      var shorter := ops[..n - 1];
      assert shorter[..i] == ops[..i];
      assert forall o :: o in shorter[i..] ==> o in ops[i..];
      RunKeepsUsed(s, shorter, i, id);
      assert ops[n - 1] in ops[i..];
      StepKeepsUsed(Run(s, shorter), ops[n - 1], id);
    }
  }

  /** Uniqueness across restarts: an ID in use at some point of a run is not returned by `next_id`
      at any later point unless it was released in between. */
  lemma InUseIsNotReturned(s: State, ops: seq<Op>, i: nat, id: nat)
    requires Valid(s) && i <= |ops| && Used(Run(s, ops[..i]).blocks, id)
    requires Release(id) !in ops[i..]
    ensures NextId(Run(s, ops)).1 != Ok(id)
  {
    RunKeepsUsed(s, ops, i, id);
    NextIdOutcome(Run(s, ops));
  }

  lemma ReturnedIsUsed(s: State)
    requires Valid(s) && NextId(s).1.Ok?
    ensures Used(Step(s, Next).blocks, NextId(s).1.value)
  {
    NextIdOutcome(s);
  }

  /** Hence two allocations that return the same ID have a release of it between them. */
  lemma ReturnedTwiceMeansReleased(s: State, ops: seq<Op>, i: nat, j: nat, id: nat)
    requires Valid(s) && i < j < |ops| && ops[i] == Next && ops[j] == Next
    ensures NextId(Run(s, ops[..i])).1 == Ok(id) && NextId(Run(s, ops[..j])).1 == Ok(id) ==>
              exists k :: i < k < j && ops[k] == Release(id)
  {
    hide Step, NextId, Used, Valid, Run;
    if NextId(Run(s, ops[..i])).1 != Ok(id) { return; }
    RunStep(s, ops, i);
    ReturnedIsUsed(Run(s, ops[..i]));
    var upto := ops[..j];
    assert upto[..i + 1] == ops[..i + 1];
    if Release(id) !in upto[i + 1..] {
      InUseIsNotReturned(s, upto, i + 1, id);
    } else {
      var k :| 0 <= k < |upto[i + 1..]| && upto[i + 1..][k] == Release(id);
      assert ops[i + 1 + k] == Release(id);
    }
  }

  // ---------------------------------------------------------------- maps that always serve

  /** The state reached from a newly created map. */
  ghost function FreshRun(ops: seq<Op>): (s: State)
    ensures Valid(s)
  {
    FreshIsValid();
    Run(Fresh, ops)
  }

  ghost predicate Healthy(s: State) { Valid(s) && Tight(s) && Aligned(s) }

  lemma HealthyStep(s: State, op: Op)
    requires Healthy(s) && op != Restart && s.nextId + 1 < U32_LIMIT
    ensures Healthy(Step(s, op)) && Step(s, op).nextId <= s.nextId + 1
  {
    match op
    case Next =>
      HealthyServes(s);
      NextIdOutcome(s);
      if Candidate(s).Some? {
        RefillOutcome(s);
        TakeQueuedOutcome(Refill(s).0);
      }
    case Release(id) =>
      MarkOutcome(s, id, false);
  }

  /** Below the 32-bit limit, a healthy map can always serve an ID. */
  lemma HealthyServes(s: State)
    requires Healthy(s) && s.nextId + 1 < U32_LIMIT
    ensures Serviceable(s)
  {
    if s.hasFree {
      RefillOutcome(s);
      if Refill(s).1 {
        assert Refill(s).0.queue[0] in Refill(s).0.queue;
      }
    }
  }

  /** Allocations and releases during which the 32-bit counter does not come to its end. */
  ghost predicate Roomy(s: State, ops: seq<Op>)
    requires Valid(s)
  {
    Restart !in ops && forall i :: 0 <= i <= |ops| ==> Run(s, ops[..i]).nextId + 1 < U32_LIMIT
  }

  /** From any healthy state - new or recovered - every run without a restart keeps
      `max_block * 2^16 <= next_id <= (max_block + 1) * 2^16`, keeps queue entries distinct, free and
      below `next_id`, and leaves a map whose `next_id` succeeds, adding exactly one unused ID. */
  lemma {:induction false} HealthyRunsServe(s: State, ops: seq<Op>)
    requires Healthy(s) && Roomy(s, ops)
    ensures var s' := Run(s, ops);
            && Healthy(s')
            && NextId(s').1.Ok?
            && AddsOne(s'.blocks, NextId(s').0.blocks, NextId(s').1.value)
    decreases |ops|
  {
    hide Used, NextId, Step, Tight, Aligned, Valid;
    assert ops[..|ops|] == ops;
    if ops != [] {
      var n := |ops| - 1;
      assert Roomy(s, ops[..n]) by {
        assert forall i :: 0 <= i <= n ==> ops[..n][..i] == ops[..i];
        assert forall o :: o in ops[..n] ==> o in ops;
      }
      HealthyRunsServe(s, ops[..n]);
      RunStep(s, ops, n);
      HealthyStep(Run(s, ops[..n]), ops[n]);
    }
    HealthyServes(Run(s, ops));
    NextIdOutcome(Run(s, ops));
  }

  // ---------------------------------------------------------------- runs with restarts

  lemma TightStep(s: State, op: Op)
    requires Valid(s) && Tight(s) && s.nextId + 1 < U32_LIMIT
    ensures Tight(Step(s, op)) && Step(s, op).nextId <= s.nextId + 1
  {
    match op
    case Next => NextIdOutcome(s);
    case Release(id) => MarkOutcome(s, id, false);
    case Restart =>
      ReopenedOutcome(s);
      ReopenedCounter(s);
  }

  lemma ReopenedCounter(s: State)
    requires Valid(s) && Tight(s)
    ensures Reopened(s.blocks).nextId <= s.nextId
  {
    ScanCovers(s.blocks, s.maxBlock + 1);
    LoadTight(s.blocks, FirstMissing(s.blocks, 0));
    hide Load;
  }

  /** With restarts anywhere, `next_id` after a run succeeds if and only if the reached state is
      serviceable: the queued or rescanned ID it would reuse lies below the counter. */
  lemma {:induction false} AnyRunServesIff(ops: seq<Op>)
    requires |ops| < U32_MAX
    ensures var s := FreshRun(ops);
            && Tight(s) && s.nextId <= |ops|
            && (NextId(s).1.Ok? <==> Serviceable(s))
            && (NextId(s).1.Ok? ==> AddsOne(s.blocks, NextId(s).0.blocks, NextId(s).1.value))
    decreases |ops|
  {
    if ops == [] {
      FreshIsValid();
    } else {
      AnyRunServesIff(ops[..|ops| - 1]);
      TightStep(FreshRun(ops[..|ops| - 1]), ops[|ops| - 1]);
    }
    NextIdOutcome(FreshRun(ops));
  }

  /** In particular every run from a fresh map that is shorter than 2^32 - 1 operations and has no
      restart. */
  lemma FreshRunsServe(ops: seq<Op>)
    requires |ops| < U32_MAX && Restart !in ops
    ensures var s := FreshRun(ops);
            && Healthy(s) && s.nextId <= |ops|
            && NextId(s).1.Ok?
            && AddsOne(s.blocks, NextId(s).0.blocks, NextId(s).1.value)
  {
    FreshIsValid();
    hide Used, NextId, Tight, Aligned, Valid, Run;
    forall i | 0 <= i <= |ops|
      ensures Run(Fresh, ops[..i]).nextId + 1 < U32_LIMIT
    {
      AnyRunServesIff(ops[..i]);
    }
    AnyRunServesIff(ops);
    HealthyRunsServe(Fresh, ops);
  }

  // ---------------------------------------------------------------- recovered maps that stop serving

  /** The counter lies below the last block and the map believes in reusable IDs, so that it no longer mints. */
  ghost predicate Jammed(s: State) {
    Valid(s) && Tight(s) && s.hasFree && s.nextId < s.maxBlock * BLOCK_SIZE_IDS
  }

  /** Neither allocations nor releases, one after the other, get such a map out of that condition: the counter
      and the blocks stay, and whatever is returned lies below the counter. Overlapping calls can
      (`FsmHazards.JammedMintsConcurrently`). */
  lemma JammedStep(s: State, op: Op)
    requires Jammed(s) && op != Restart
    ensures Jammed(Step(s, op)) && Step(s, op).nextId == s.nextId && Step(s, op).maxBlock == s.maxBlock
    ensures NextId(s).1.Ok? ==> NextId(s).1.value < s.nextId
  {
    hide Used;
    NextIdOutcome(s);
    RefillOutcome(s);
    assert !Used(s.blocks, s.nextId);
    var s1 := Refill(s).0;
    TakeQueuedOutcome(s1);
    match op
    case Next =>
    case Release(id) =>
      MarkOutcome(s, id, false);
  }

  lemma {:induction false} JammedRun(s: State, ops: seq<Op>)
    requires Jammed(s) && Restart !in ops
    ensures var s' := Run(s, ops);
            && Jammed(s') && s'.nextId == s.nextId && s'.maxBlock == s.maxBlock
            && (NextId(s').1.Ok? ==> NextId(s').1.value < s.nextId)
    decreases |ops|
  {
    hide Step, NextId, Used, Tight;
    if ops != [] {
      var n := |ops| - 1;
      assert forall o :: o in ops[..n] ==> o in ops;
      JammedRun(s, ops[..n]);
      JammedStep(Run(s, ops[..n]), ops[n]);
    }
    JammedStep(Run(s, ops), Next);
  }

  /** Nothing below the counter is free any more. */
  ghost predicate Wedged(s: State) {
    Jammed(s) && forall x: nat :: x < s.nextId ==> Used(s.blocks, x)
  }

  /** From then on, over every sequential run of allocations and releases, an allocation can only return an ID that
      was released during that run; without a release every one of them fails. */
  lemma WedgedReuses(s: State, ops: seq<Op>)
    requires Wedged(s) && Restart !in ops
    ensures var r := NextId(Run(s, ops)).1;
            && (r.Ok? ==> r.value < s.nextId && Release(r.value) in ops)
            && ((forall o :: o in ops ==> o == Next) ==> r.Err?)
  {
    JammedRun(s, ops);
    hide Step, NextId, Used, Tight, Valid;
    var r := NextId(Run(s, ops)).1;
    if r.Ok? && Release(r.value) !in ops {
      assert Run(s, ops[..0]) == s;
      assert ops[0..] == ops;
      InUseIsNotReturned(s, ops, 0, r.value);
    }
  }

  /** Such a release does revive it, for that one ID. */
  lemma ReleaseRevives(s: State, id: nat)
    requires Valid(s) && s.queue == [] && Used(s.blocks, id) && id < s.nextId
    ensures Valid(Step(s, Release(id))) && NextId(Step(s, Release(id))).1 == Ok(id)
  {
    MarkOutcome(s, id, false);
    var s1 := Step(s, Release(id));
    assert BlockOf(id) <= s.maxBlock;
    assert s1.queue == [id] && s1.hasFree;
    TakeQueuedOutcome(s1);
    assert NextId(s1) == TakeQueued(s1);
  }

  // ---------------------------------------------------------------- exactly which recovered maps serve

  lemma {:induction false} RunAppend(s: State, a: seq<Op>, b: seq<Op>)
    requires Valid(s)
    ensures Run(s, a + b) == Run(Run(s, a), b)
    decreases |b|
  {
    hide Step, Valid;
    if b == [] {
      assert a + b == a;
    } else {
      var n := |b| - 1;
      RunAppend(s, a, b[..n]);
      assert (a + b)[..|a| + n] == a + b[..n];
    }
  }

  lemma {:induction false} FewerFree(a: Blocks, b: Blocks, id: nat, hi: nat)
    requires AddsOne(a, b, id)
    ensures |FreeIds(a, 0, hi)| == |FreeIds(b, 0, hi)| + (if id < hi then 1 else 0)
  {
    hide Used;
    if hi > 0 {
      FewerFree(a, b, id, hi - 1);
    }
  }

  /** A jammed map uses up the free IDs below its counter and then refuses. */
  lemma {:induction false} JammedRefuses(s: State) returns (ops: seq<Op>)
    requires Jammed(s)
    ensures Restart !in ops && NextId(Run(s, ops)).1.Err?
    decreases |FreeIds(s.blocks, 0, s.nextId)|
  {
    hide NextId, Used, Tight, FreeIds, Valid;
    if NextId(s).1.Err? {
      ops := [];
    } else {
      JammedStep(s, Next);
      NextIdOutcome(s);
      FewerFree(s.blocks, Step(s, Next).blocks, NextId(s).1.value, s.nextId);
      var rest := JammedRefuses(Step(s, Next));
      ops := [Next] + rest;
      RunAppend(s, [Next], rest);
      RunOne(s, Next);
    }
  }

  lemma RunOne(s: State, op: Op)
    requires Valid(s)
    ensures Run(s, [op]) == Step(s, op)
  {
    assert [op][..0] == [];
  }

  /** A map recovered with working reads whose counter lies below the last block gets jammed by releasing
      its highest ID, or, if it has none, by minting one and releasing that. */
  lemma JamRecovered(s: State) returns (ops: seq<Op>)
    requires Valid(s) && Tight(s) && s.nextId < s.maxBlock * BLOCK_SIZE_IDS
    requires s.nextId > 0 ==> Used(s.blocks, s.nextId - 1)
    ensures Restart !in ops && Jammed(Run(s, ops))
    ensures forall i :: 0 <= i <= |ops| ==> Run(s, ops[..i]).nextId + 1 < U32_LIMIT
  {
    hide Used, Tight, Valid, NextId, Step;
    JamBelow(s);
    if s.hasFree {
      ops := [];
    } else if s.nextId > 0 {
      ops := [Release(s.nextId - 1)];
      RunOne(s, ops[0]);
      JamByRelease(s);
      assert ops[..0] == [] && ops[..1] == ops;
    } else {
      ops := [Next, Release(0)];
      MintFirst(s);
      JamByRelease(Step(s, Next));
      RunOne(s, Next);
      assert ops[..0] == [] && ops[..1] == [Next] && ops[..2] == ops;
      RunStep(s, ops, 1);
    }
  }

  lemma JamBelow(s: State)
    requires Valid(s) && s.nextId < s.maxBlock * BLOCK_SIZE_IDS
    ensures s.nextId + 2 < U32_LIMIT
  {
  }

  lemma MintFirst(s: State)
    requires Valid(s) && Tight(s) && s.nextId == 0 && !s.hasFree
    ensures var s' := Step(s, Next);
            && Valid(s') && Tight(s') && s'.nextId == 1 && s'.maxBlock == s.maxBlock && Used(s'.blocks, 0)
  {
    NextIdOutcome(s);
    assert Candidate(s).None?;
  }

  lemma JamByRelease(s: State)
    requires Valid(s) && Tight(s) && 0 < s.nextId < s.maxBlock * BLOCK_SIZE_IDS && Used(s.blocks, s.nextId - 1)
    ensures Jammed(Step(s, Release(s.nextId - 1))) && Step(s, Release(s.nextId - 1)).nextId == s.nextId
  {
    MarkOutcome(s, s.nextId - 1, false);
  }

  /** The exact condition on a recovered map. It serves in every sequential continuation that has no further restart
      and does not exhaust the counter if and only if the recovered counter has reached the last block. */
  lemma RecoveredServesIff(blocks: Blocks, n: nat)
    requires WellFormed(blocks) && Covers(blocks, n) && 0 < n <= BLOCK_SIZE_IDS && !Used(blocks, U32_MAX)
    ensures var s := Load(blocks, n, 0);
            && Valid(s)
            && (Healthy(s) <==> (n - 1) * BLOCK_SIZE_IDS <= s.nextId)
            && (Healthy(s) <==> forall ops :: Roomy(s, ops) ==> NextId(Run(s, ops)).1.Ok?)
  {
    LoadOutcome(blocks, n, 0);
    LoadTight(blocks, n);
    var s := Load(blocks, n, 0);
    assert Healthy(s) <==> (n - 1) * BLOCK_SIZE_IDS <= s.nextId;
    hide Load, Valid, Tight, Aligned, Used, NextId, Run;
    if Healthy(s) {
      forall ops | Roomy(s, ops)
        ensures NextId(Run(s, ops)).1.Ok?
      {
        HealthyRunsServe(s, ops);
      }
    } else {
      var ops := UnhealthyRefuses(s);
    }
  }

  lemma UnhealthyRefuses(s: State) returns (ops: seq<Op>)
    requires Valid(s) && Tight(s) && s.nextId < s.maxBlock * BLOCK_SIZE_IDS
    requires s.nextId > 0 ==> Used(s.blocks, s.nextId - 1)
    ensures Roomy(s, ops) && NextId(Run(s, ops)).1.Err?
  {
    hide NextId, Used, Tight, Valid;
    var jam := JamRecovered(s);
    var rest := JammedRefuses(Run(s, jam));
    ops := jam + rest;
    RunAppend(s, jam, rest);
    forall i | 0 <= i <= |ops|
      ensures Run(s, ops[..i]).nextId + 1 < U32_LIMIT
    {
      if i <= |jam| {
        assert ops[..i] == jam[..i];
      } else {
        var k := i - |jam|;
        assert ops[..i] == jam + rest[..k];
        RunAppend(s, jam, rest[..k]);
        assert forall o :: o in rest[..k] ==> o in rest;
        JammedRun(Run(s, jam), rest[..k]);
        JamBelow(Run(s, ops[..i]));
      }
    }
  }

  // ---------------------------------------------------------------- a run that ends wedged

  /** The map holds exactly the IDs below `n`. */
  ghost predicate HoldsBelow(s: State, n: nat) {
    forall x: nat :: Used(s.blocks, x) <==> x < n
  }

  lemma {:induction false} MintedRun(k: nat)
    requires k < U32_MAX
    ensures var s := FreshRun(seq(k, _ => Next));
            && HoldsBelow(s, k) && s.nextId == k && !s.hasFree && s.queue == [] && Tight(s)
            && s.maxBlock == if k == 0 then 0 else BlockOf(k - 1)
  {
    if k == 0 {
      FreshIsValid();
    } else {
      MintedRun(k - 1);
      var ops := seq(k, _ => Next);
      assert ops[..k - 1] == seq(k - 1, _ => Next) && ops[..k] == ops;
      FreshIsValid();
      hide Valid, HoldsBelow, Tight, Step, Run, Used;
      RunStep(Fresh, ops, k - 1);
      MintedStep(FreshRun(ops[..k - 1]), k - 1);
    }
  }

  lemma MintedStep(s: State, k: nat)
    requires Valid(s) && Tight(s) && HoldsBelow(s, k) && s.nextId == k && !s.hasFree && k + 1 < U32_LIMIT
    requires s.maxBlock == if k == 0 then 0 else BlockOf(k - 1)
    ensures var s' := Step(s, Next);
            && HoldsBelow(s', k + 1) && s'.nextId == k + 1 && !s'.hasFree && s'.queue == [] && Tight(s')
            && s'.maxBlock == BlockOf(k)
  {
    NextIdOutcome(s);
    MintKeepsFlag(s);
  }

  lemma {:induction false} MintKeepsFlag(s: State)
    requires Valid(s) && s.queue == []
    ensures Mint(s).0.hasFree == s.hasFree
    decreases U32_LIMIT - s.nextId
  {
    MintOnceOutcome(s);
    if MintOnce(s).1 == Ok(false) {
      MintKeepsFlag(MintOnce(s).0);
    }
  }

  const WEDGE: seq<Op> := [Release(65536), Release(65535), Restart, Release(5), Next]

  lemma ReleaseTop(s: State, n: nat)
    requires Valid(s) && HoldsBelow(s, n + 1) && n < s.nextId && BlockOf(n) <= s.maxBlock
    ensures var s' := Step(s, Release(n));
            Valid(s') && HoldsBelow(s', n) && s'.nextId == s.nextId && s'.maxBlock == s.maxBlock
  {
    MarkOutcome(s, n, false);
  }

  lemma RestartDense(s: State, n: nat)
    requires Valid(s) && HoldsBelow(s, n) && 0 < n < U32_LIMIT
    ensures var s' := Step(s, Restart);
            && Valid(s') && HoldsBelow(s', n) && s'.nextId == n && s.maxBlock <= s'.maxBlock
            && s'.queue == [] && !s'.hasFree
  {
    assert !Used(s.blocks, U32_MAX);
    ReopenedOutcome(s);
    ScanCovers(s.blocks, s.maxBlock + 1);
    LoadTight(s.blocks, FirstMissing(s.blocks, 0));
    LoadOutcome(s.blocks, FirstMissing(s.blocks, 0), 0);
    var s' := Step(s, Restart);
    assert s'.hasFree == (s'.queue != []);
    hide Load, Valid, FirstMissing, FreeIdsDown, LastUsed;
    assert Used(s.blocks, n - 1);
    assert s'.queue != [] ==> s'.queue[0] in s'.queue;
  }

  lemma ReuseOne(s: State, n: nat, id: nat)
    requires Valid(s) && HoldsBelow(s, n) && s.nextId == n && s.queue == [] && !s.hasFree
    requires id < n && BlockOf(id) <= s.maxBlock
    ensures Valid(Step(s, Release(id)))
    ensures var s' := Step(Step(s, Release(id)), Next);
            && Valid(s') && HoldsBelow(s', n) && s'.nextId == n && s'.maxBlock == s.maxBlock
            && s'.queue == [] && s'.hasFree
  {
    MarkOutcome(s, id, false);
    var s1 := Step(s, Release(id));
    assert Used(s.blocks, id) && s1.queue == [id] && s1.hasFree;
    TakeQueuedOutcome(s1);
    assert NextId(s1) == TakeQueued(s1);
  }

  /** Stronger claims about recovered maps are false: after minting 65537 IDs, releasing the last two,
      restarting, releasing one more ID and reusing it, the map is wedged with an empty queue. */
  lemma WedgeIsReachable()
    ensures var s := Run(FreshRun(seq(65537, _ => Next)), WEDGE);
            Wedged(s) && s.queue == [] && s.nextId == 65535
  {
    hide Used, Step, Valid, Run, FreshRun;
    MintedRun(65537);
    var s0 := FreshRun(seq(65537, _ => Next));
    ReleaseTop(s0, 65536);
    var s1 := Step(s0, Release(65536));
    ReleaseTop(s1, 65535);
    var s2 := Step(s1, Release(65535));
    RestartDense(s2, 65535);
    var s3 := Step(s2, Restart);
    ReuseOne(s3, 65535, 5);
    var s5 := Step(Step(s3, Release(5)), Next);
    assert Run(s0, WEDGE) == s5 by {
      FiveSteps(s0, WEDGE);
    }
  }

  lemma FiveSteps(s: State, ops: seq<Op>)
    requires Valid(s) && |ops| == 5
    ensures Valid(Step(s, ops[0])) && Valid(Step(Step(s, ops[0]), ops[1]))
    ensures Valid(Step(Step(Step(s, ops[0]), ops[1]), ops[2]))
    ensures Valid(Step(Step(Step(Step(s, ops[0]), ops[1]), ops[2]), ops[3]))
    ensures Run(s, ops) == Step(Step(Step(Step(Step(s, ops[0]), ops[1]), ops[2]), ops[3]), ops[4])
  {
    hide Step, Valid, Run;
    assert ops[..0] == [] && ops[..5] == ops;
    RunEmpty(s);
    RunStep(s, ops, 0);
    RunStep(s, ops, 1);
    RunStep(s, ops, 2);
    RunStep(s, ops, 3);
    RunStep(s, ops, 4);
  }

  lemma RunEmpty(s: State)
    requires Valid(s)
    ensures Run(s, []) == s
  {
  }
}
