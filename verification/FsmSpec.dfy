/** What each operation of the free space map does to its whole state when the store works:
    the reference that the imperative allocator is proved against. */
module FsmSpec {
  import opened Collections
  import opened FsmLayout

  datatype FsmError = GarnetRead | GarnetWrite | IdOutOfRange(id: nat)

  datatype Result<T> = Ok(value: T) | Err(error: FsmError)

  /** Persistent blocks, the bounded queue of reusable IDs, the two counters and the hint flag. */
  datatype State = State(blocks: Blocks, queue: seq<nat>, hasFree: bool, maxBlock: nat, nextId: nat)

  // ---------------------------------------------------------------- scans as functions

  /** Free IDs of `[lo, hi)`, ascending. */
  function FreeIds(blocks: Blocks, lo: nat, hi: nat): seq<nat>
    decreases hi - lo
  {
    if hi <= lo then []
    else FreeIds(blocks, lo, hi - 1) + (if Used(blocks, hi - 1) then [] else [hi - 1])
  }

  /** Free IDs of `[lo, hi)`, descending. */
  function FreeIdsDown(blocks: Blocks, lo: nat, hi: nat): seq<nat>
    decreases hi - lo
  {
    if hi <= lo then []
    else FreeIdsDown(blocks, lo + 1, hi) + (if Used(blocks, lo) then [] else [lo])
  }

  /** The highest used ID of `[lo, hi)`, or -1. */
  function LastUsed(blocks: Blocks, lo: nat, hi: nat): int
    decreases hi - lo
  {
    if hi <= lo then -1
    else
      var above := LastUsed(blocks, lo + 1, hi);
      if above >= 0 then above else if Used(blocks, lo) then lo else -1
  }

  lemma {:induction false} FreeIdsMembers(blocks: Blocks, lo: nat, hi: nat)
    ensures forall x: nat :: x in FreeIds(blocks, lo, hi) <==> lo <= x < hi && !Used(blocks, x)
    ensures forall i, j :: 0 <= i < j < |FreeIds(blocks, lo, hi)|
                           ==> FreeIds(blocks, lo, hi)[i] < FreeIds(blocks, lo, hi)[j]
    decreases hi - lo
  {
    if lo < hi {
      FreeIdsMembers(blocks, lo, hi - 1);
      var f := FreeIds(blocks, lo, hi - 1);
      assert forall i :: 0 <= i < |f| ==> f[i] in f;
    }
  }

  lemma {:induction false} FreeIdsPrefix(blocks: Blocks, lo: nat, mid: nat, hi: nat)
    requires lo <= mid <= hi
    ensures FreeIds(blocks, lo, mid) <= FreeIds(blocks, lo, hi)
    decreases hi - mid
  {
    if mid < hi {
      FreeIdsPrefix(blocks, lo, mid, hi - 1);
    }
  }

  lemma {:induction false} FreeIdsDownMembers(blocks: Blocks, lo: nat, hi: nat)
    ensures forall x: nat :: x in FreeIdsDown(blocks, lo, hi) <==> lo <= x < hi && !Used(blocks, x)
    ensures Distinct(FreeIdsDown(blocks, lo, hi))
    decreases hi - lo
  {
    if lo < hi {
      FreeIdsDownMembers(blocks, lo + 1, hi);
    }
  }

  lemma {:induction false} FreeIdsDownOrder(blocks: Blocks, lo: nat, hi: nat)
    ensures forall i, j :: 0 <= i < j < |FreeIdsDown(blocks, lo, hi)|
                           ==> FreeIdsDown(blocks, lo, hi)[i] > FreeIdsDown(blocks, lo, hi)[j]
    decreases hi - lo
  {
    if lo < hi {
      FreeIdsDownOrder(blocks, lo + 1, hi);
      FreeIdsDownMembers(blocks, lo + 1, hi);
      var f := FreeIdsDown(blocks, lo + 1, hi);
      assert forall i :: 0 <= i < |f| ==> f[i] in f;
    }
  }

  lemma {:induction false} LastUsedIsLast(blocks: Blocks, lo: nat, hi: nat)
    ensures LastUsed(blocks, lo, hi) == -1
            || (lo <= LastUsed(blocks, lo, hi) < hi && Used(blocks, LastUsed(blocks, lo, hi)))
    ensures forall x: nat :: lo <= x < hi && Used(blocks, x) ==> x <= LastUsed(blocks, lo, hi)
    decreases hi - lo
  {
    if lo < hi {
      LastUsedIsLast(blocks, lo + 1, hi);
    }
  }

  /** A byte without a free bit adds nothing to the upward scan. */
  lemma SkipFullByte(blocks: Blocks, from: nat)
    requires from % 8 == 0
    requires BlockKey(BlockOf(from)) in blocks && |blocks[BlockKey(BlockOf(from))]| == BLOCK_SIZE_BYTES
    requires blocks[BlockKey(BlockOf(from))][ByteOf(from)] == 0xff
    ensures FreeIds(blocks, 0, from + 8) == FreeIds(blocks, 0, from)
  {
    FullByte(0xff);
    forall x: nat | from <= x < from + 8
      ensures Used(blocks, x)
    {
      ByteHolds(blocks, from, x - from);
    }
    NoneFree(blocks, from, 8);
  }

  lemma {:induction false} NoneFree(blocks: Blocks, from: nat, n: nat)
    requires forall x: nat :: from <= x < from + n ==> Used(blocks, x)
    ensures FreeIds(blocks, 0, from + n) == FreeIds(blocks, 0, from)
  {
    hide Used;
    if n > 0 {
      NoneFree(blocks, from, n - 1);
    }
  }

  // ---------------------------------------------------------------- invariants

  /** Kept by every operation, whatever the store does. */
  ghost predicate Valid(s: State) {
    && WellFormed(s.blocks)
    && Covers(s.blocks, s.maxBlock + 1)
    && s.maxBlock < BLOCK_SIZE_IDS
    && s.nextId < U32_LIMIT
    && |s.queue| <= FAST_SIZE
    && Distinct(s.queue)
    && (forall q :: q in s.queue ==> !Used(s.blocks, q) && BlockOf(q) <= s.maxBlock)
    && (!s.hasFree ==> s.queue == [])
  }

  /** The mint counter is past every used ID and within the allocated blocks. Holds after recovery too. */
  ghost predicate Tight(s: State) {
    && (forall x: nat :: Used(s.blocks, x) ==> x < s.nextId)
    && s.nextId <= (s.maxBlock + 1) * BLOCK_SIZE_IDS
  }

  /** What a fresh map has and a recovered map may lack: everything below the last block,
      and everything queued, was already minted. */
  ghost predicate Aligned(s: State) {
    && s.maxBlock * BLOCK_SIZE_IDS <= s.nextId
    && (forall q :: q in s.queue ==> q < s.nextId)
  }

  ghost predicate SameUsed(a: Blocks, b: Blocks) {
    forall x: nat :: Used(a, x) == Used(b, x)
  }

  /** `b` is `a` with exactly `id` added. */
  ghost predicate AddsOne(a: Blocks, b: Blocks, id: nat) {
    !Used(a, id) && forall x: nat :: Used(b, x) == (x == id || Used(a, x))
  }

  // ---------------------------------------------------------------- operations

  function Push(queue: seq<nat>, id: nat): seq<nat> {
    if |queue| < FAST_SIZE then queue + [id] else queue
  }

  /** `mark_id` */
  function Mark(s: State, id: nat, used: bool): (State, Result<bool>)
    requires WholeBlocks(s.blocks) && forall b: nat :: b <= s.maxBlock ==> BlockKey(b) in s.blocks
  {
    if id >= s.nextId then (s, Err(IdOutOfRange(id)))
    else if BlockOf(id) > s.maxBlock then (s, Err(GarnetRead))
    else
      var changed := Used(s.blocks, id) != used;
      var s1 := s.(blocks := WithBit(s.blocks, id, used));
      (if !used && changed then s1.(queue := Push(s.queue, id), hasFree := true) else s1, Ok(changed))
  }

  /** `refill_fast_free_list`: only the blocks before the last one are scanned. */
  function Refill(s: State): (State, bool) {
    if s.queue != [] then (s, true)
    else
      var free := FreeIds(s.blocks, 0, s.maxBlock * BLOCK_SIZE_IDS);
      (s.(queue := Take(free, FAST_SIZE), hasFree := free != []), free != [])
  }

  /** `expand_to` when the next block is the one missing. */
  function Expand(s: State): State {
    s.(blocks := s.blocks[BlockKey(s.maxBlock + 1) := ZeroBlock()], maxBlock := s.maxBlock + 1)
  }

  /** One round of the minting loop: take a number, make room for it, try to mark it. */
  function MintOnce(s: State): (State, Result<bool>)
    requires Valid(s)
  {
    var id := s.nextId;
    var s1 := s.(nextId := (id + 1) % U32_LIMIT);
    if BlockOf(id) > s.maxBlock + 1 then (s1, Err(IdOutOfRange(id)))
    else if BlockOf(id) == s.maxBlock + 1 then
      ExpandOutcome(s1);
      Mark(Expand(s1), id, true)
    else Mark(s1, id, true)
  }

  /** The minting loop of `next_id`. */
  function Mint(s: State): (State, Result<nat>)
    requires Valid(s) && s.queue == []
    decreases U32_LIMIT - s.nextId
  {
    var (s1, r) := MintOnce(s);
    MintOnceOutcome(s);
    match r
    case Err(e) => (s1, Err(e))
    case Ok(changed) => if changed then (s1, Ok(s.nextId)) else Mint(s1)
  }

  /** `next_id` */
  function NextId(s: State): (State, Result<nat>)
    requires Valid(s)
  {
    if !s.hasFree then Mint(s)
    else
      var (s1, found) := Refill(s);
      RefillOutcome(s);
      if found then TakeQueued(s1) else Mint(s1)
  }

  /** Pop the head of the queue and mark it used. */
  function TakeQueued(s: State): (State, Result<nat>)
    requires Valid(s) && s.queue != []
  {
    var (s1, r) := Mark(s.(queue := s.queue[1..]), s.queue[0], true);
    (s1, if r.Ok? then Ok(s.queue[0]) else Err(r.error))
  }

  /** `new` and `load_state` when the scan for stored blocks ends at `n` and the reads of the blocks
      below `lo` fail. */
  function Load(blocks: Blocks, n: nat, lo: nat): State
    requires n > 0
  {
    var last := LastUsed(blocks, lo * BLOCK_SIZE_IDS, n * BLOCK_SIZE_IDS);
    var queue := if last < 0 then []
                 else Take(FreeIdsDown(blocks, lo * BLOCK_SIZE_IDS, last), FAST_SIZE);
    State(blocks, queue, queue != [], n - 1, (last + 1) % U32_LIMIT)
  }

  /** `new` when it finds no block 0: write one and start from it. */
  function Created(blocks: Blocks): State {
    State(blocks[BlockKey(0) := ZeroBlock()], [], false, 0, 0)
  }

  const Fresh: State := Created(map[])

  // ---------------------------------------------------------------- single operations

  /** `mark_id`: a reported change is a real one, and it is a change of that ID alone. */
  lemma MarkOutcome(s: State, id: nat, used: bool)
    requires Valid(s) && (used ==> id !in s.queue)
    ensures var (s', r) := Mark(s, id, used);
            && Valid(s')
            && s'.nextId == s.nextId && s'.maxBlock == s.maxBlock
            && (r.Err? ==> s' == s)
            && (r.Ok? ==> r.value == (Used(s.blocks, id) != used)
                          && forall x: nat :: Used(s'.blocks, x) == if x == id then used else Used(s.blocks, x))
  {
    var (s', r) := Mark(s, id, used);
    if r.Ok? {
      forall x: nat
        ensures Used(s'.blocks, x) == if x == id then used else Used(s.blocks, x)
      {
        WithBitMembership(s.blocks, id, used, x);
      }
    }
  }

  /** When `mark_id` fails and with which error, and what it does to the queue: an ID that becomes free goes to
      its end, if there is room, and raises the flag. */
  lemma MarkExact(s: State, id: nat, used: bool)
    requires Valid(s)
    ensures var (s', r) := Mark(s, id, used);
            && (r.Ok? <==> id < s.nextId && BlockOf(id) <= s.maxBlock)
            && (r.Err? ==> r.error == if id >= s.nextId then IdOutOfRange(id) else GarnetRead)
            && var freed := r == Ok(true) && !used;
               && s'.queue == (if freed && |s.queue| < 1024 then s.queue + [id] else s.queue)
               && (s'.hasFree <==> s.hasFree || freed)
  {
    hide Used, BlockOf, BlockKey;
  }

  /** A refill leaves membership alone and queues only free IDs from below the last block;
      it reports nothing exactly when the queue is empty and those blocks are full. */
  lemma RefillOutcome(s: State)
    requires Valid(s) && s.hasFree
    ensures var (s', found) := Refill(s);
            && Valid(s')
            && s'.blocks == s.blocks && s'.nextId == s.nextId && s'.maxBlock == s.maxBlock
            && (found <==> s'.queue != [])
            && (found <==> s'.hasFree)
            && (!found <==> s.queue == [] && forall x: nat :: x < s.maxBlock * BLOCK_SIZE_IDS ==> Used(s.blocks, x))
            && (s.queue == [] ==> forall q :: q in s'.queue ==> !Used(s.blocks, q) && q < s.maxBlock * BLOCK_SIZE_IDS)
  {
    hide Used, BlockKey, FreeIds;
    var free := FreeIds(s.blocks, 0, s.maxBlock * BLOCK_SIZE_IDS);
    FreeIdsMembers(s.blocks, 0, s.maxBlock * BLOCK_SIZE_IDS);
    var (s', found) := Refill(s);
    if s.queue == [] {
      assert forall q :: q in s'.queue ==> q in free;
      if free != [] {
        assert free[0] in free;
      }
    }
  }

  /** A refill of an empty queue takes the lowest free IDs, lowest first, and at most 1024. */
  lemma RefillOrder(s: State)
    requires Valid(s) && s.queue == []
    ensures var queue := Refill(s).0.queue;
            && |queue| <= 1024 && (forall i, j :: 0 <= i < j < |queue| ==> queue[i] < queue[j])
            && (forall x: nat :: x < s.maxBlock * BLOCK_SIZE_IDS && !Used(s.blocks, x) && x !in queue ==>
                  |queue| == 1024 && forall q :: q in queue ==> q < x)
  {
    var hi := s.maxBlock * BLOCK_SIZE_IDS;
    var free := FreeIds(s.blocks, 0, hi);
    FreeIdsMembers(s.blocks, 0, hi);
    hide Used, FreeIds, BlockKey;
    forall x: nat | x < hi && !Used(s.blocks, x) && x !in Refill(s).0.queue
      ensures |Refill(s).0.queue| == 1024 && forall q :: q in Refill(s).0.queue ==> q < x
    {
      var i :| 0 <= i < |free| && free[i] == x;
    }
  }

  /** Growing by one zero block keeps the invariant and every membership. */
  lemma ExpandOutcome(s: State)
    requires Valid(s) && s.maxBlock + 1 < BLOCK_SIZE_IDS
    ensures Valid(Expand(s)) && SameUsed(s.blocks, Expand(s).blocks)
  {
    forall x: nat
      ensures Used(Expand(s).blocks, x) == Used(s.blocks, x)
    {
      AddZeroBlock(s.blocks, s.maxBlock + 1, x);
    }
    forall b: nat | BlockKey(b) == BlockKey(s.maxBlock + 1)
      ensures b < BLOCK_SIZE_IDS
    {
      BlockKeyInjective(b, s.maxBlock + 1);
    }
  }

  /** Starting over keeps exactly the memberships outside block 0. */
  lemma CreatedKeeps(blocks: Blocks)
    ensures forall x: nat :: Used(Created(blocks).blocks, x) == (BlockOf(x) != 0 && Used(blocks, x))
  {
    forall x: nat
      ensures Used(Created(blocks).blocks, x) == (BlockOf(x) != 0 && Used(blocks, x))
    {
      if BlockOf(x) == 0 {
        ZeroBlockUnused(x);
      } else if BlockKey(BlockOf(x)) == BlockKey(0) {
        BlockKeyInjective(BlockOf(x), 0);
      }
    }
  }

  /** It gives a valid map if and only if nothing is used beyond block 0, and keeps every membership if
      and only if nothing is used in block 0. */
  lemma CreatedOutcome(blocks: Blocks)
    requires WellFormed(blocks)
    ensures Valid(Created(blocks)) <==> Within(blocks, 1)
    ensures SameUsed(blocks, Created(blocks).blocks) <==> forall x: nat :: Used(blocks, x) ==> BlockOf(x) != 0
  {
    CreatedKeeps(blocks);
    forall b: nat | BlockKey(b) == BlockKey(0)
      ensures b == 0
    {
      BlockKeyInjective(b, 0);
    }
    hide Used, BlockKey, BlockOf;
  }

  /** One minting round: the counter moves by one (modulo 2^32), the state stays valid, and
      membership changes only if the round succeeds, by exactly the minted ID. */
  lemma MintOnceOutcome(s: State)
    requires Valid(s) && s.queue == []
    ensures var (s', r) := MintOnce(s);
            && Valid(s') && s'.queue == []
            && s'.nextId == (s.nextId + 1) % U32_LIMIT
            && (r.Ok? ==> s.nextId + 1 < U32_LIMIT)
            && (r == Ok(true) ==> AddsOne(s.blocks, s'.blocks, s.nextId))
            && (r != Ok(true) ==> SameUsed(s.blocks, s'.blocks))
            && (r == Ok(false) ==> Used(s.blocks, s.nextId))
            && (s.nextId + 1 < U32_LIMIT && BlockOf(s.nextId) <= s.maxBlock + 1 ==> r.Ok?)
            && s.maxBlock <= s'.maxBlock
            && (r.Ok? ==> s'.maxBlock == if BlockOf(s.nextId) > s.maxBlock then s.maxBlock + 1 else s.maxBlock)
  {
    var id := s.nextId;
    var s1 := s.(nextId := (id + 1) % U32_LIMIT);
    if BlockOf(id) == s.maxBlock + 1 {
      ExpandOutcome(s1);
      MarkOutcome(Expand(s1), id, true);
    } else if BlockOf(id) <= s.maxBlock {
      MarkOutcome(s1, id, true);
    }
  }

  // ---------------------------------------------------------------- next_id on its own

  /** Whatever the state, minting either adds exactly the returned ID or changes no membership. */
  lemma {:induction false} MintOutcome(s: State)
    requires Valid(s) && s.queue == []
    ensures var (s', r) := Mint(s);
            && Valid(s')
            && (r.Ok? ==> AddsOne(s.blocks, s'.blocks, r.value))
            && (r.Err? ==> SameUsed(s.blocks, s'.blocks))
    decreases U32_LIMIT - s.nextId
  {
    MintOnceOutcome(s);
    var (s1, r) := MintOnce(s);
    if r == Ok(false) {
      MintOutcome(s1);
    }
  }

  lemma TakeQueuedOutcome(s: State)
    requires Valid(s) && s.queue != []
    ensures var (s', r) := TakeQueued(s);
            && Valid(s')
            && s'.nextId == s.nextId && s'.maxBlock == s.maxBlock && s'.hasFree == s.hasFree
            && s'.queue == s.queue[1..]
            && (r.Ok? <==> s.queue[0] < s.nextId)
            && (r.Ok? ==> r.value == s.queue[0] && AddsOne(s.blocks, s'.blocks, r.value))
            && (r.Err? ==> r == Err(IdOutOfRange(s.queue[0])) && s'.blocks == s.blocks)
  {
    var popped := s.(queue := s.queue[1..]);
    assert forall q :: q in popped.queue ==> q in s.queue;
    assert s.queue[0] in s.queue;
    MarkOutcome(popped, s.queue[0], true);
  }

  /** The ID that `next_id` would take from the queue or from a refill, if any. */
  function Candidate(s: State): Option<nat> {
    if !s.hasFree then None
    else
      var (s1, found) := Refill(s);
      if found && s1.queue != [] then Some(s1.queue[0]) else None
  }

  /** The caller-checkable condition under which `next_id` succeeds. */
  predicate Serviceable(s: State) {
    match Candidate(s)
    case Some(id) => id < s.nextId
    case None => s.nextId + 1 < U32_LIMIT
  }

  /** In one step from a state whose counter is past every used ID, `next_id` succeeds if and only
      if the state is serviceable; a success adds exactly one previously unused ID. */
  lemma NextIdOutcome(s: State)
    requires Valid(s)
    ensures var (s', r) := NextId(s);
            && Valid(s')
            && (r.Ok? ==> AddsOne(s.blocks, s'.blocks, r.value))
            && (r.Err? ==> SameUsed(s.blocks, s'.blocks))
            && (Tight(s) ==> (r.Ok? <==> Serviceable(s)))
            && (Tight(s) && Candidate(s).Some? ==> s'.nextId == s.nextId && s'.maxBlock == s.maxBlock && Tight(s'))
            && (Tight(s) && Candidate(s).None? && Serviceable(s) ==>
                  r == Ok(s.nextId) && s'.nextId == s.nextId + 1 && s'.queue == [] && Tight(s')
                  && s'.maxBlock == if BlockOf(s.nextId) > s.maxBlock then s.maxBlock + 1 else s.maxBlock)
  {
    hide Mint, Used;
    if s.hasFree {
      RefillOutcome(s);
      var (s1, found) := Refill(s);
      if found {
        TakeQueuedOutcome(s1);
      } else {
        MintOutcome(s1);
        if Tight(s) { MintTight(s1); }
      }
    } else {
      MintOutcome(s);
      if Tight(s) { MintTight(s); }
    }
  }

  lemma CounterBound(s: State)
    requires Valid(s)
    ensures s.nextId < U32_LIMIT
  {
  }

  lemma MintTight(s: State)
    requires Valid(s) && Tight(s) && s.queue == []
    ensures var (s', r) := Mint(s);
            && (r.Ok? <==> s.nextId + 1 < U32_LIMIT)
            && (r.Ok? ==> r.value == s.nextId && s'.nextId == s.nextId + 1 && Tight(s') && s'.queue == []
                          && s'.maxBlock == if BlockOf(s.nextId) > s.maxBlock then s.maxBlock + 1 else s.maxBlock)
  {
    hide Valid, MintOnce, Used;
    CounterBound(s);
    MintOnceOutcome(s);
    var (s', r) := MintOnce(s);
    if r == Ok(true) {
      assert forall x: nat :: Used(s'.blocks, x) ==> x < s'.nextId;
    }
  }
}
