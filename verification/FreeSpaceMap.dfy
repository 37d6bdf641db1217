/** The free space map as the program runs it: an object that keeps a queue, a flag and two counters
    in memory and reads and rewrites whole blocks in the store. */
module FreeSpaceMapModel {
  import opened Collections
  import opened FsmLayout
  import opened FsmSpec
  import FsmRuns

  /** The key-value store behind the map. Any operation of a store that is not `reliable` may fail, and
      then changes nothing. An existence check is a read, so a failed one answers no. */
  class Store {
    var blocks: Blocks
    const reliable: bool

    constructor (blocks: Blocks, reliable: bool)
      ensures this.blocks == blocks && this.reliable == reliable
    {
      this.blocks := blocks;
      this.reliable := reliable;
    }

    method Attempt() returns (ok: bool)
      ensures reliable ==> ok
    {
      var luck: bool := *;
      ok := reliable || luck;
    }

    method Exists(key: nat) returns (found: bool)
      ensures found ==> key in blocks
      ensures reliable ==> (found <==> key in blocks)
    {
      var ok := Attempt();
      found := ok && key in blocks;
    }

    method Read(key: nat) returns (ok: bool, data: seq<bv8>)
      ensures ok ==> key in blocks && data == blocks[key]
      ensures reliable && key in blocks ==> ok
    {
      ok := Attempt();
      if ok && key in blocks {
        data := blocks[key];
      } else {
        ok, data := false, [];
      }
    }

    method Write(key: nat, data: seq<bv8>) returns (ok: bool)
      modifies this
      ensures blocks == if ok then old(blocks)[key := data] else old(blocks)
      ensures reliable ==> ok
    {
      ok := Attempt();
      if ok {
        blocks := blocks[key := data];
      }
    }

    /** Read-modify-write of one status bit; a missing block is created as zeroes first. */
    method RmwStatus(key: nat, byteIdx: nat, bitIdx: nat, used: bool) returns (ok: bool, changed: bool)
      requires WholeBlocks(blocks) && byteIdx < BLOCK_SIZE_BYTES && bitIdx < 8
      modifies this
      ensures reliable ==> ok
      ensures !ok ==> blocks == old(blocks)
      ensures ok ==>
                var data := if key in old(blocks) then old(blocks)[key] else ZeroBlock();
                && changed == StatusChanges(used, data[byteIdx], bitIdx)
                && blocks == old(blocks)[key := data[byteIdx := UpdateByte(used, data[byteIdx], bitIdx)]]
    {
      ok := Attempt();
      changed := false;
      if ok {
        var data := if key in blocks then blocks[key] else ZeroBlock();
        changed := StatusChanges(used, data[byteIdx], bitIdx);
        data := data[byteIdx := UpdateByte(used, data[byteIdx], bitIdx)];
        blocks := blocks[key := data];
      }
    }
  }

  /** What any allocation attempt may do, whatever the store does: hand out an ID that was unused and
      mark exactly it, or change no membership at all. */
  ghost predicate AllocOutcome(s: State, s': State, r: Result<nat>) {
    && Valid(s')
    && (r.Ok? ==> AddsOne(s.blocks, s'.blocks, r.value))
    && (r.Err? ==> SameUsed(s.blocks, s'.blocks))
  }

  class FreeSpaceMap {
    const store: Store
    var hasFreeIds: bool
    var fastFreeList: seq<nat>
    var maxBlock: nat
    var nextId: nat

    ghost function S(): State
      reads this, store
    {
      State(store.blocks, fastFreeList, hasFreeIds, maxBlock, nextId)
    }

    ghost predicate Inv()
      reads this, store
    {
      Valid(S())
    }

    method PushFast(id: nat) returns (ok: bool)
      modifies this`fastFreeList
      ensures ok <==> old(|fastFreeList|) < FAST_SIZE
      ensures fastFreeList == Push(old(fastFreeList), id)
    {
      ok := |fastFreeList| < FAST_SIZE;
      if ok {
        fastFreeList := fastFreeList + [id];
      }
    }

    method PopFast() returns (id: Option<nat>)
      modifies this`fastFreeList
      ensures old(fastFreeList) == [] ==> id == None && fastFreeList == []
      ensures old(fastFreeList) != [] ==> id == Some(old(fastFreeList)[0]) && fastFreeList == old(fastFreeList)[1..]
    {
      if fastFreeList == [] {
        id := None;
      } else {
        id := Some(fastFreeList[0]);
        fastFreeList := fastFreeList[1..];
      }
    }

    /** Success follows the reference; any failure leaves the map as it was. */
    method MarkId(id: nat, used: bool) returns (r: Result<bool>)
      requires Inv() && (used ==> id !in fastFreeList)
      modifies this, store
      ensures Inv()
      ensures r.Ok? || store.reliable ==> (S(), r) == Mark(old(S()), id, used)
      ensures r.Err? ==> S() == old(S())
    {
      ghost var before := S();
      if id >= nextId {
        return Err(IdOutOfRange(id));
      }
      var blockId, byteIdx, bitIdx := BlockOf(id), ByteOf(id), BitOf(id);
      if blockId > maxBlock || maxBlock == U32_MAX {
        return Err(GarnetRead);
      }
      ghost var block := store.blocks[BlockKey(blockId)];
      StatusChangesIff(used, block[byteIdx], bitIdx);
      var ok, changed := store.RmwStatus(BlockKey(blockId), byteIdx, bitIdx, used);
      if !ok {
        return Err(GarnetWrite);
      }
      MarkOutcome(before, id, used);
      if !used && changed {
        var _ := PushFast(id);
        hasFreeIds := true;
      }
      r := Ok(changed);
    }

    method MarkFree(id: nat) returns (r: Result<bool>)
      requires Inv()
      modifies this, store
      ensures Inv()
      ensures r.Ok? || store.reliable ==> (S(), r) == Mark(old(S()), id, false)
      ensures r.Err? ==> S() == old(S())
    {
      r := MarkId(id, false);
    }

    /** Agrees with the set that the blocks represent, on every ID already minted. */
    method IsFree(id: nat) returns (r: Result<bool>)
      requires Inv()
      ensures r.Ok? ==> id < nextId && r.value == !Used(store.blocks, id)
      ensures store.reliable ==> (r.Ok? <==> id < nextId && BlockOf(id) <= maxBlock)
      ensures id >= nextId <==> r == Err(IdOutOfRange(id))
    {
      if id >= nextId {
        return Err(IdOutOfRange(id));
      }
      if BlockOf(id) > maxBlock || maxBlock == U32_MAX {
        return Err(GarnetRead);
      }
      var ok, block := store.Read(BlockKey(BlockOf(id)));
      if !ok {
        return Err(GarnetRead);
      }
      r := Ok(!BitUsed(block[ByteOf(id)], BitOf(id)));
    }

    /** The refill scan has covered the IDs below `upto`, or stopped before it with a full queue. */
    ghost predicate Scanned(upto: nat, full: bool, found: bool)
      reads this, store
    {
      && |fastFreeList| <= FAST_SIZE
      && (!full ==> fastFreeList == FreeIds(store.blocks, 0, upto))
      && (full ==> |fastFreeList| == FAST_SIZE && fastFreeList < FreeIds(store.blocks, 0, upto))
      && found == (fastFreeList != [])
      && (found ==> hasFreeIds)
    }

    lemma ScannedFurther(upto: nat, later: nat, found: bool)
      requires Scanned(upto, true, found) && upto <= later
      ensures Scanned(later, true, found)
    {
      FreeIdsPrefix(store.blocks, 0, upto, later);
    }

    /** The bits of one byte, in ID order. `full` says that the queue refused an ID. */
    method ScanByte(byte: bv8, from: nat, found: bool) returns (full: bool, found': bool)
      requires WholeBlocks(store.blocks) && from % 8 == 0
      requires BlockKey(BlockOf(from)) in store.blocks
      requires byte == store.blocks[BlockKey(BlockOf(from))][ByteOf(from)]
      requires Scanned(from, false, found)
      modifies this`fastFreeList, this`hasFreeIds
      ensures Scanned(from + 8, full, found')
      ensures hasFreeIds == (old(hasFreeIds) || found') && (found ==> found')
    {
      hide Used, BitUsed, BlockOf, ByteOf, BlockKey;
      found' := found;
      var id := from;
      for bidx := 0 to 8
        invariant id == from + bidx
        invariant Scanned(id, false, found')
        invariant hasFreeIds == (old(hasFreeIds) || found') && (found ==> found')
      {
        ByteHolds(store.blocks, from, bidx);
        if !BitUsed(byte, bidx) {
          found' := true;
          hasFreeIds := true;
          var ok := PushFast(id);
          if !ok {
            ScannedFurther(id + 1, from + 8, true);
            return true, true;
          }
        }
        id := id + 1;
      }
      full := false;
    }

    /** One block, byte by byte; the `0xff` shortcut advances the ID by eight without looking. */
    method ScanBlock(block: seq<bv8>, blockId: nat, found: bool) returns (full: bool, found': bool)
      requires WholeBlocks(store.blocks) && BlockKey(blockId) in store.blocks && block == store.blocks[BlockKey(blockId)]
      requires Scanned(blockId * BLOCK_SIZE_IDS, false, found)
      modifies this`fastFreeList, this`hasFreeIds
      ensures Scanned((blockId + 1) * BLOCK_SIZE_IDS, full, found')
      ensures hasFreeIds == (old(hasFreeIds) || found') && (found ==> found')
    {
      hide Used, BlockOf, ByteOf, BlockKey;
      found', full := found, false;
      var id := blockId * BLOCK_SIZE_IDS;
      for i := 0 to |block|
        invariant id == blockId * BLOCK_SIZE_IDS + 8 * i
        invariant Scanned(id, false, found') && !full
        invariant hasFreeIds == (old(hasFreeIds) || found') && (found ==> found')
      {
        ByteWithin(blockId, i);
        if block[i] == 0xff {
          SkipFullByte(store.blocks, id);
          id := id + 8;
          continue;
        }
        full, found' := ScanByte(block[i], id, found');
        if full {
          ScannedFurther(id + 8, (blockId + 1) * BLOCK_SIZE_IDS, found');
          return;
        }
        id := id + 8;
      }
    }

    method RefillFastFreeList() returns (r: Result<bool>)
      requires Inv() && hasFreeIds
      modifies this`fastFreeList, this`hasFreeIds
      ensures Inv()
      ensures r.Ok? || store.reliable ==> r.Ok? && (S(), r.value) == Refill(old(S()))
    {
      hide Used, BlockOf, BlockKey;
      if fastFreeList != [] {
        return Ok(true);
      }
      RefillOutcome(S());
      var found, full := false, false;
      var blockId := 0;
      while blockId < maxBlock
        invariant 0 <= blockId <= maxBlock
        invariant Scanned(blockId * BLOCK_SIZE_IDS, false, found)
        invariant hasFreeIds
      {
        var ok, block := store.Read(BlockKey(blockId));
        if !ok {
          PartialRefill(blockId);
          return Err(GarnetRead);
        }
        full, found := ScanBlock(block, blockId, found);
        if full {
          ScannedFurther((blockId + 1) * BLOCK_SIZE_IDS, maxBlock * BLOCK_SIZE_IDS, found);
          break;
        }
        blockId := blockId + 1;
      }
      if !found {
        hasFreeIds := false;
      }
      assert found == (FreeIds(store.blocks, 0, maxBlock * BLOCK_SIZE_IDS) != []);
      assert fastFreeList == Take(FreeIds(store.blocks, 0, maxBlock * BLOCK_SIZE_IDS), FAST_SIZE);
      r := Ok(found);
    }

    /** A scan cut short by a failed read still leaves only distinct free IDs in the queue. */
    lemma PartialRefill(blockId: nat)
      requires WellFormed(store.blocks) && Covers(store.blocks, maxBlock + 1)
      requires maxBlock < BLOCK_SIZE_IDS && nextId < U32_LIMIT
      requires hasFreeIds && blockId <= maxBlock && |fastFreeList| <= FAST_SIZE
      requires fastFreeList == FreeIds(store.blocks, 0, blockId * BLOCK_SIZE_IDS)
      ensures Inv()
    {
      FreeIdsMembers(store.blocks, 0, blockId * BLOCK_SIZE_IDS);
    }

    // -------------------------------------------------------------- growing and minting

    /** Add the block that holds `id` if it is the next one; refuse to leave a gap. */
    method ExpandTo(id: nat) returns (r: Result<bool>)
      requires maxBlock == U32_MAX || maxBlock < BLOCK_SIZE_IDS
      modifies this`maxBlock, store
      ensures r.Err? ==> S() == old(S())
      ensures old(maxBlock) == U32_MAX && r.Ok? ==>
                maxBlock == 0 && store.blocks == old(store.blocks)[BlockKey(BlockOf(id)) := ZeroBlock()]
      ensures old(maxBlock) != U32_MAX && r.Ok? ==>
                && BlockOf(id) <= old(maxBlock) + 1
                && S() == if BlockOf(id) == old(maxBlock) + 1 then Expand(old(S())) else old(S())
      ensures store.reliable ==> (r.Err? <==> old(maxBlock) != U32_MAX && BlockOf(id) > old(maxBlock) + 1)
      ensures store.reliable && r.Err? ==> r == Err(IdOutOfRange(id))
    {
      var blockId := BlockOf(id);
      if maxBlock == U32_MAX || blockId == maxBlock + 1 {
        var ok := store.Write(BlockKey(blockId), ZeroBlock());
        if !ok {
          return Err(GarnetWrite);
        }
        if maxBlock == U32_MAX {
          maxBlock := 0;
        } else {
          maxBlock := maxBlock + 1;
        }
      } else if blockId > maxBlock + 1 {
        return Err(IdOutOfRange(id));
      }
      r := Ok(true);
    }

    /** One round of the minting loop. */
    method MintRound() returns (id: nat, r: Result<bool>)
      requires Inv() && fastFreeList == []
      modifies this, store
      ensures id == old(nextId) && Inv() && fastFreeList == [] && nextId < U32_LIMIT
      ensures r.Ok? ==> nextId == id + 1
      ensures r == Ok(true) ==> AddsOne(old(store.blocks), store.blocks, id)
      ensures r != Ok(true) ==> SameUsed(old(store.blocks), store.blocks)
      ensures store.reliable ==> (S(), r) == MintOnce(old(S()))
    {
      hide Used;
      id := nextId;
      nextId := (nextId + 1) % U32_LIMIT;
      ghost var s1 := S();
      if BlockOf(id) > maxBlock {
        var e := ExpandTo(id);
        if e.Err? {
          return id, Err(e.error);
        }
        ExpandOutcome(s1);
      }
      MarkOutcome(S(), id, true);
      r := MarkId(id, true);
    }

    /** The minting loop: take numbers until one can be marked. */
    method MintId() returns (r: Result<nat>)
      requires Inv() && fastFreeList == []
      modifies this, store
      ensures AllocOutcome(old(S()), S(), r)
      ensures store.reliable ==> (S(), r) == Mint(old(S()))
    {
      assert nextId < U32_LIMIT;
      hide Used, MintOnce, Valid;
      var changed, id := false, 0;
      while !changed
        invariant Inv() && fastFreeList == []
        invariant !changed ==> SameUsed(old(store.blocks), store.blocks)
        invariant !changed && store.reliable ==> Mint(S()) == Mint(old(S()))
        invariant changed ==> AddsOne(old(store.blocks), store.blocks, id)
        invariant changed && store.reliable ==> Mint(old(S())) == (S(), Ok(id))
        invariant nextId < U32_LIMIT
        decreases !changed, U32_LIMIT - nextId
      {
        var m;
        id, m := MintRound();
        if m.Err? {
          return Err(m.error);
        }
        changed := m.value;
      }
      r := Ok(id);
    }

    /** Allocate an ID. The source's retries of the reuse branch never repeat in a sequential run,
        because a queued ID is free: the assertions below are that argument. */
    method NextId() returns (r: Result<nat>)
      requires Inv()
      modifies this, store
      ensures AllocOutcome(old(S()), S(), r)
      ensures store.reliable ==> (S(), r) == FsmSpec.NextId(old(S()))
    {
      if hasFreeIds {
        ghost var start := S();
        var found := true;
        RefillOutcome(start);
        if fastFreeList == [] {
          var f := RefillFastFreeList();
          if f.Err? {
            return Err(f.error);
          }
          found := f.value;
        }
        if found {
          r := TakeFast();
          return;
        }
      }
      r := MintId();
    }

    /** Pop a queued ID and mark it used. */
    method TakeFast() returns (r: Result<nat>)
      requires Inv() && fastFreeList != []
      modifies this, store
      ensures AllocOutcome(old(S()), S(), r)
      ensures store.reliable ==> (S(), r) == TakeQueued(old(S()))
    {
      ghost var start := S();
      TakeQueuedOutcome(start);
      var popped := PopFast();
      var id := popped.value;
      assert forall q :: q in fastFreeList ==> q in start.queue;
      MarkOutcome(S(), id, true);
      var m := MarkId(id, true);
      if m.Err? {
        return Err(m.error);
      }
      assert id in start.queue;
      assert m.value;
      r := Ok(id);
    }

    // -------------------------------------------------------------- recovery

    /** An object that has read nothing yet. */
    constructor (store: Store)
      ensures this.store == store && S() == State(store.blocks, [], false, U32_MAX, 0)
    {
      this.store := store;
      hasFreeIds, fastFreeList, maxBlock, nextId := false, [], U32_MAX, 0;
    }

    /** The downward scan has covered the IDs of `[pos, top)`. */
    ghost predicate Loaded(pos: nat, top: nat, last: int)
      reads this, store
    {
      && last == LastUsed(store.blocks, pos, top)
      && fastFreeList == if last < 0 then [] else Take(FreeIdsDown(store.blocks, pos, last), FAST_SIZE)
    }

    /** The scan's own ID counter is right, or the queue is full and the counter no longer matters. */
    ghost predicate InStep(id: nat, pos: nat, last: int)
      reads this
    {
      id == (if pos == 0 then 0 else pos - 1) || (|fastFreeList| == FAST_SIZE && id < last)
    }

    /** Once the queue is full nothing below can change the outcome of the scan. */
    lemma {:induction false} LoadedFull(pos: nat, lower: nat, top: nat, last: int)
      requires Loaded(pos, top, last) && |fastFreeList| == FAST_SIZE && lower <= pos
      ensures Loaded(lower, top, last)
      decreases pos - lower
    {
      if lower < pos {
        LastUsedIsLast(store.blocks, pos, top);
        LoadedFull(pos - 1, lower, top, last);
      }
    }

    /** One byte, from its last bit to its first. */
    method LoadByte(byte: bv8, id: nat, last: int, ghost pos: nat, ghost top: nat) returns (id': nat, last': int)
      requires WholeBlocks(store.blocks) && pos % 8 == 0 && 8 <= pos <= top
      requires BlockKey(BlockOf(pos - 8)) in store.blocks
      requires byte == store.blocks[BlockKey(BlockOf(pos - 8))][ByteOf(pos - 8)]
      requires Loaded(pos, top, last) && InStep(id, pos, last)
      modifies this`fastFreeList
      ensures Loaded(pos - 8, top, last') && InStep(id', pos - 8, last')
    {
      hide Used, BitUsed, BlockOf, ByteOf, BlockKey;
      id', last' := id, last;
      ghost var p := pos;
      for bidx := 8 downto 0
        invariant p == pos - 8 + bidx
        invariant Loaded(p, top, last') && InStep(id', p, last')
      {
        ByteHolds(store.blocks, pos - 8, bidx);
        LastUsedIsLast(store.blocks, p, top);
        if BitUsed(byte, bidx) {
          last' := if last' < id' then id' else last';
        } else if id' < last' {
          var ok := PushFast(id');
          if !ok {
            LoadedFull(p, pos - 8, top, last');
            return;
          }
        }
        id' := if id' == 0 then 0 else id' - 1;
        p := p - 1;
      }
    }

    /** One block, from its last byte to its first. The counter restarts with the block. */
    method LoadBlock(block: seq<bv8>, blockId: nat, last: int, ghost top: nat) returns (last': int)
      requires WholeBlocks(store.blocks) && BlockKey(blockId) in store.blocks && block == store.blocks[BlockKey(blockId)]
      requires (blockId + 1) * BLOCK_SIZE_IDS <= top && Loaded((blockId + 1) * BLOCK_SIZE_IDS, top, last)
      modifies this`fastFreeList
      ensures Loaded(blockId * BLOCK_SIZE_IDS, top, last')
    {
      hide Used, BlockOf, ByteOf, BlockKey, Loaded;
      last' := last;
      var id: nat := blockId * BLOCK_SIZE_IDS + BLOCK_SIZE_IDS - 1;
      for i := |block| downto 0
        invariant Loaded(blockId * BLOCK_SIZE_IDS + 8 * i, top, last')
        invariant InStep(id, blockId * BLOCK_SIZE_IDS + 8 * i, last')
      {
        ByteWithin(blockId, i);
        id, last' := LoadByte(block[i], id, last', blockId * BLOCK_SIZE_IDS + 8 * i + 8, top);
      }
    }

    /** Count blocks until an existence check answers no. */
    method CountBlocks() returns (n: nat)
      requires WellFormed(store.blocks)
      ensures n <= BLOCK_SIZE_IDS && Stored(store.blocks, n)
      ensures store.reliable ==> n == FirstMissing(store.blocks, 0)
    {
      hide BlockKey;
      n := 0;
      while true
        invariant 0 <= n <= BLOCK_SIZE_IDS && Stored(store.blocks, n)
        invariant store.reliable ==> FirstMissing(store.blocks, 0) == FirstMissing(store.blocks, n)
        decreases BLOCK_SIZE_IDS - n
      {
        var found := store.Exists(BlockKey(n));
        if !found { return; }
        n := n + 1;
      }
    }

    /** Rebuild the in-memory state: count the blocks, then scan them downwards until a read fails. A count
        of zero wraps around when it is decremented. */
    method LoadState() returns (ghost seen: nat, ghost lo: nat)
      requires WellFormed(store.blocks)
      requires fastFreeList == [] && !hasFreeIds
      modifies this
      ensures lo <= seen <= BLOCK_SIZE_IDS && Stored(store.blocks, seen)
      ensures store.reliable ==> seen == FirstMissing(store.blocks, 0) && lo == 0
      ensures S() == if seen > 0 then Load(store.blocks, seen, lo) else State(store.blocks, [], false, U32_MAX, 0)
    {
      hide Used, BlockOf, ByteOf, BlockKey, FirstMissing;
      var maxBlockId := CountBlocks();
      var lastUsed := -1;
      var blockId := maxBlockId;
      while blockId > 0
        invariant 0 <= blockId <= maxBlockId
        invariant Loaded(blockId * BLOCK_SIZE_IDS, maxBlockId * BLOCK_SIZE_IDS, lastUsed)
        invariant !hasFreeIds
      {
        var ok, block := store.Read(BlockKey(blockId - 1));
        if !ok { break; }
        lastUsed := LoadBlock(block, blockId - 1, lastUsed, maxBlockId * BLOCK_SIZE_IDS);
        blockId := blockId - 1;
      }
      seen, lo := maxBlockId, blockId;
      maxBlock := (maxBlockId - 1) % U32_LIMIT;
      nextId := (lastUsed + 1) % U32_LIMIT;
      if fastFreeList != [] {
        hasFreeIds := true;
      }
    }

    /** Open the map: recover from stored blocks, or start over with a zeroed block 0 if none is found. A
        recovered map is valid exactly if every used ID lies in the blocks that were found; one that starts
        over, exactly if none lies beyond block 0, and it forgets those in block 0. */
    static method New(store: Store) returns (fsm: FreeSpaceMap, r: Result<bool>, ghost found: bool, ghost seen: nat, ghost lo: nat)
      requires WellFormed(store.blocks)
      modifies store
      ensures fresh(fsm) && fsm.store == store
      ensures found ==> r.Ok? && store.blocks == old(store.blocks) && BlockKey(0) in store.blocks
                        && lo <= seen <= BLOCK_SIZE_IDS && Stored(store.blocks, seen)
      ensures found && seen > 0 ==> fsm.S() == Load(store.blocks, seen, lo) && (fsm.Inv() <==> Within(store.blocks, seen))
      ensures found && seen == 0 ==> fsm.S() == State(store.blocks, [], false, U32_MAX, 0)
      ensures !found && r.Ok? ==> fsm.S() == Created(old(store.blocks)) && (fsm.Inv() <==> Within(old(store.blocks), 1))
      ensures r.Err? ==> store.blocks == old(store.blocks)
      ensures store.reliable ==>
                r.Ok? && fsm.S() == if BlockKey(0) in old(store.blocks) then FsmRuns.Reopened(old(store.blocks))
                                    else Created(old(store.blocks))
      ensures store.reliable && Within(old(store.blocks), FirstMissing(old(store.blocks), 0)) ==> fsm.Inv()
    {
      assert BlockOf(0) == 0;
      hide Used, BlockKey, BlockOf;
      fsm := new FreeSpaceMap(store);
      seen, lo := 0, 0;
      var stored := store.Exists(BlockKey(0));
      found := stored;
      if stored {
        seen, lo := fsm.LoadState();
        if seen > 0 {
          FsmRuns.LoadOutcome(store.blocks, seen, lo);
        }
        r := Ok(true);
      } else {
        r := fsm.ExpandTo(BlockOf(0));
        CreatedOutcome(old(store.blocks));
      }
    }
  }
}
