/** What goes wrong in the protocol, and exactly when: restarts that miss blocks, callers that free what
    they do not hold, and threads that get a jammed map to mint. */
module FsmHazards {
  import opened Collections
  import opened FsmLayout
  import opened FsmSpec
  import opened FsmProtocol
  import opened FsmReach
  import opened FsmSolo
  import opened FsmUniqueness
  import opened FsmRuns

  /** Some continuation without a call of `mark_free` and without a restart returns `x`. */
  ghost predicate CanReturn(s: Sys, x: nat) {
    exists s', t :: Reaches(s, s', false) && EventOf(s', Go(t, true)) == Return(t, x)
  }

  // ---------------------------------------------------------------- IDs that a restart has found stay safe

  /** `x` is used, in an allocated block, and no thread is about to overwrite it, clear it or return it. */
  ghost predicate Guarded(s: Sys, x: nat) {
    && Used(s.mem.blocks, x) && BlockOf(x) <= s.mem.maxBlock
    && (forall t :: t in s.pcs ==> GuardedPc(s.mem, s.pcs[t], x))
    && (forall t :: t in s.pcs && HoldsLock(s.pcs[t]) ==> s.writer == Some(t))
  }

  predicate GuardedPc(m: State, pc: PC, x: nat) {
    !Releasing(pc) && pc != Acquired(x) && ((pc.ExpandWrite? || pc.ExpandBump?) ==> BlockOf(pc.id) == m.maxBlock + 1)
  }

  lemma MarkKeeps(blocks: Blocks, id: nat, x: nat)
    requires Used(blocks, x)
    ensures Used(MarkBlocks(blocks, id, true), x)
  {
    var key := BlockKey(BlockOf(id));
    if key in blocks && |blocks[key]| == BLOCK_SIZE_BYTES {
      WithBitMembership(blocks, id, true, x);
    }
  }

  lemma GuardedThread(m: State, w: Option<Tid>, t: Tid, pc: PC, ok: bool, x: nat)
    requires Used(m.blocks, x) && BlockOf(x) <= m.maxBlock && GuardedPc(m, pc, x)
    requires (HoldsLock(pc) ==> w == Some(t)) && (NeedsLock(pc) ==> w == None)
    ensures var e := StepFrom(m, w, t, pc, ok);
            && Used(e.mem.blocks, x) && m.maxBlock <= e.mem.maxBlock && GuardedPc(e.mem, e.pc, x)
            && (HoldsLock(e.pc) ==> e.writer == Some(t))
            && (e.writer != w || m.maxBlock < e.mem.maxBlock ==> HoldsLock(pc) || w == None)
            && (m.maxBlock < e.mem.maxBlock ==> HoldsLock(pc))
  {
    hide Used, BlockOf, BlockKey, FreeIds, MarkBlocks, ZeroBlock;
    match pc
    case MarkRmw(id, why) => MarkKeeps(m.blocks, id, x);
    case ExpandWrite(id) => AddZeroBlock(m.blocks, BlockOf(id), x);
    case _ =>
  }

  lemma GuardedStep(s: Sys, a: Action, x: nat)
    requires Guarded(s, x) && Enabled(s, a) && Allowed(a, false)
    ensures Guarded(Apply(s, a), x)
  {
    hide Used, BlockOf;
    if a.Go? {
      assert a.t in s.pcs;
      GuardedThread(s.mem, s.writer, a.t, Pc(s, a.t), a.ok, x);
      hide StepFrom, NeedsLock;
      LockedElsewhere(s, a.t, x);
    }
  }

  /** Only the thread that holds the lock relies on `max_block` standing still. */
  lemma LockedElsewhere(s: Sys, t: Tid, x: nat)
    requires Guarded(s, x)
    ensures forall u :: u in s.pcs && (s.pcs[u].ExpandWrite? || s.pcs[u].ExpandBump?) ==> s.writer == Some(u)
  {
    hide Used, BlockOf, GuardedPc;
  }

  lemma GuardedStays(s: Sys, s': Sys, x: nat)
    requires Guarded(s, x) && Reaches(s, s', false)
    ensures Guarded(s', x)
  {
    hide Enabled, Apply, Guarded;
    var states, acts := Witness(s, s', false);
    for i := 0 to |acts|
      invariant Guarded(states[i], x)
    {
      GuardedStep(states[i], acts[i], x);
    }
  }

  // ---------------------------------------------------------------- IDs that it has missed do not

  /** A map whose counter stands at `c`, without a gap before its next block, and whose blocks from `n` on
      hold nothing. */
  ghost predicate Opened(m: State, c: nat, n: nat) {
    && WellFormed(m.blocks) && Stored(m.blocks, m.maxBlock + 1) && m.maxBlock < BLOCK_SIZE_IDS
    && m.nextId == c <= (m.maxBlock + 1) * BLOCK_SIZE_IDS && c < U32_LIMIT
    && (!m.hasFree ==> m.queue == [])
    && (forall y: nat :: n <= BlockOf(y) <= m.maxBlock ==> !Used(m.blocks, y))
  }

  /** Threads 0 and 1 are outside. */
  ghost predicate Outside(s: Sys) { s.writer == None && Pc(s, 0) == Idle && Pc(s, 1) == Idle }

  /** Thread 1 pops an ID whose mark is refused or fails, and gives up. */
  lemma PopFails(o: Sys, s: Sys) returns (s': Sys)
    requires Reaches(o, s, false) && s.writer == None && Pc(s, 1) == Idle && s.mem.hasFree && s.mem.queue != []
    ensures Reaches(o, s', false) && s'.mem == s.mem.(queue := s.mem.queue[1..]) && s'.writer == None
    ensures Pc(s', 1) == Idle && forall u :: u != 1 ==> Pc(s', u) == Pc(s, u)
  {
    hide Reaches, BlockOf;
    var id, m := s.mem.queue[0], s.mem.(queue := s.mem.queue[1..]);
    s' := Call(o, s, 1, false);
    s' := Walk(o, s', 1, CheckFlag, true, Effect(s.mem, None, Pop(true), None), false);
    s' := Walk(o, s', 1, Pop(true), true, Effect(m, None, MarkCheckId(id, Reuse), None), false);
    s' := MarkFailsAt(o, s', id);
  }

  lemma MarkFailsAt(o: Sys, s: Sys, id: nat) returns (s': Sys)
    requires Reaches(o, s, false) && s.writer == None && Pc(s, 1) == MarkCheckId(id, Reuse)
    ensures Reaches(o, s', false) && s'.mem == s.mem && s'.writer == None
    ensures Pc(s', 1) == Idle && forall u :: u != 1 ==> Pc(s', u) == Pc(s, u)
  {
    hide Reaches, BlockOf;
    var m := s.mem;
    s' := s;
    if id >= m.nextId {
      s' := Walk(o, s', 1, MarkCheckId(id, Reuse), true, Effect(m, None, Idle, None), false);
    } else {
      s' := Walk(o, s', 1, MarkCheckId(id, Reuse), true, Effect(m, None, MarkCheckBlock(id, Reuse), None), false);
      if BlockOf(id) > m.maxBlock {
        s' := Walk(o, s', 1, MarkCheckBlock(id, Reuse), true, Effect(m, None, Idle, None), false);
      } else {
        s' := Walk(o, s', 1, MarkCheckBlock(id, Reuse), true, Effect(m, None, MarkRmw(id, Reuse), None), false);
        s' := Walk(o, s', 1, MarkRmw(id, Reuse), false, Effect(m, None, Idle, None), false);
      }
    }
  }

  lemma {:induction false} DrainQueue(o: Sys, s: Sys) returns (s': Sys)
    requires Reaches(o, s, false) && s.writer == None && Pc(s, 1) == Idle && s.mem.hasFree
    ensures Reaches(o, s', false) && s'.mem == s.mem.(queue := []) && s'.writer == None
    ensures Pc(s', 1) == Idle && forall u :: u != 1 ==> Pc(s', u) == Pc(s, u)
    decreases |s.mem.queue|
  {
    hide Reaches;
    s' := s;
    if s.mem.queue != [] {
      s' := PopFails(o, s);
      s' := DrainQueue(o, s');
    }
  }

  /** Whatever the queue holds and whatever a refill finds, thread 0 can get to mint: while it stands
      between its refill and its second pop, thread 1 empties the queue. */
  lemma ToFetchAdd(o: Sys, s: Sys) returns (s': Sys)
    requires Reaches(o, s, false) && Outside(s) && (!s.mem.hasFree ==> s.mem.queue == [])
    ensures Reaches(o, s', false) && s'.writer == None && Pc(s', 0) == FetchAdd && Pc(s', 1) == Idle
    ensures s'.mem == s.mem.(queue := [], hasFree := s'.mem.hasFree)
  {
    hide Reaches, Leads, FreeIds;
    if !s.mem.hasFree {
      s' := Call(o, s, 0, false);
      s' := Walk(o, s', 0, CheckFlag, true, Effect(s.mem, None, FetchAdd, None), false);
    } else {
      s' := DrainQueue(o, s);
      var m := s'.mem;
      s' := Call(o, s', 0, false);
      s' := Walk(o, s', 0, CheckFlag, true, Effect(m, None, Pop(true), None), false);
      s' := Walk(o, s', 0, Pop(true), true, Effect(m, None, RefillLock, None), false);
      RefillAlone(m, 0);
      var (m1, found) := Refill(m);
      s' := LeadsReaches(o, s', 0, Config(m1, None, if found then Pop(false) else FetchAdd), false);
      if found {
        s' := DrainQueue(o, s');
        s' := Walk(o, s', 0, Pop(false), true, Effect(s'.mem, None, FetchAdd, None), false);
      }
    }
  }

  lemma ExpandOpened(m: State, c: nat, n: nat)
    requires Opened(m, c, n) && m.maxBlock + 1 < BLOCK_SIZE_IDS
    ensures Opened(Expand(m), c, n)
  {
    forall y: nat | n <= BlockOf(y) <= m.maxBlock + 1
      ensures !Used(Expand(m).blocks, y)
    {
      if BlockOf(y) == m.maxBlock + 1 {
        ZeroBlockUnused(y);
      } else {
        AddZeroBlock(m.blocks, m.maxBlock + 1, y);
      }
    }
    forall b: nat | BlockKey(b) == BlockKey(m.maxBlock + 1)
      ensures b < BLOCK_SIZE_IDS
    {
      BlockKeyInjective(b, m.maxBlock + 1);
    }
    hide Used, BlockOf, BlockKey;
  }

  lemma MintedOpened(m: State, c: nat, n: nat)
    requires Opened(m, c, n) && c + 1 < U32_LIMIT
    ensures BlockOf(c) <= m.maxBlock + 1
    ensures Opened(Minted(m), c + 1, n) && BlockOf(c) <= Minted(m).maxBlock
  {
    if BlockOf(c) > m.maxBlock {
      assert c == (m.maxBlock + 1) * BLOCK_SIZE_IDS;
      assert m.maxBlock + 1 < BLOCK_SIZE_IDS;
      ExpandOpened(m, c, n);
    }
    hide Used, BlockKey, WellFormed, Stored;
  }

  /** One mint by thread 0, up to its read-modify-write. */
  lemma ToRmw(o: Sys, s: Sys, c: nat, n: nat) returns (s': Sys)
    requires Reaches(o, s, false) && Outside(s) && Opened(s.mem, c, n) && c + 1 < U32_LIMIT
    ensures Reaches(o, s', false) && s'.writer == None && Pc(s', 0) == MarkRmw(c, Minting) && Pc(s', 1) == Idle
    ensures Opened(s'.mem, c + 1, n) && BlockOf(c) <= s'.mem.maxBlock && s'.mem.queue == []
    ensures BlockOf(c) <= s.mem.maxBlock ==> s'.mem.maxBlock == s.mem.maxBlock
  {
    s' := ToFetchAdd(o, s);
    var m := s'.mem;
    assert Opened(m, c, n);
    MintedOpened(m, c, n);
    assert Minted(m).nextId == c + 1 && Minted(m).queue == [];
    assert BlockOf(c) <= m.maxBlock ==> Minted(m).maxBlock == m.maxBlock;
    hide Reaches, BlockOf, BlockKey, Opened, Leads, Minted;
    MintEntryAlone(m, 0);
    s' := LeadsReaches(o, s', 0, Config(Minted(m), None, MarkCheckId(c, Minting)), false);
    s' := Walk(o, s', 0, MarkCheckId(c, Minting), true, Effect(s'.mem, None, MarkCheckBlock(c, Minting), None), false);
    s' := Walk(o, s', 0, MarkCheckBlock(c, Minting), true, Effect(s'.mem, None, MarkRmw(c, Minting), None), false);
  }

  /** A mint whose read-modify-write fails moves the counter and marks nothing. */
  lemma Burn(o: Sys, s: Sys, c: nat, n: nat) returns (s': Sys)
    requires Reaches(o, s, false) && Outside(s) && Opened(s.mem, c, n) && c + 1 < U32_LIMIT
    ensures Reaches(o, s', false) && Outside(s') && Opened(s'.mem, c + 1, n)
  {
    hide Reaches, Opened, BlockOf;
    s' := ToRmw(o, s, c, n);
    s' := Walk(o, s', 0, MarkRmw(c, Minting), false, Effect(s'.mem, None, Idle, None), false);
  }

  lemma {:induction false} BurnUpTo(o: Sys, s: Sys, c: nat, n: nat, x: nat) returns (s': Sys)
    requires Reaches(o, s, false) && Outside(s) && Opened(s.mem, c, n) && c <= x && x + 1 < U32_LIMIT
    ensures Reaches(o, s', false) && Outside(s') && Opened(s'.mem, x, n)
    decreases x - c
  {
    hide Reaches, Opened, Outside;
    s' := s;
    if c < x {
      s' := Burn(o, s, c, n);
      s' := BurnUpTo(o, s', c + 1, n, x);
    }
  }

  /** The counter can be brought to any unreached ID in a block that holds nothing, and the ID returned. */
  lemma Obtain(o: Sys, s: Sys, c: nat, n: nat, x: nat) returns (s': Sys)
    requires Reaches(o, s, false) && Outside(s) && Opened(s.mem, c, n)
    requires c <= x && x + 1 < U32_LIMIT && n <= BlockOf(x)
    ensures Reaches(o, s', false) && s'.writer == None && Pc(s', 0) == Acquired(x) && Pc(s', 1) == Idle
    ensures WellFormed(s'.mem.blocks) && Stored(s'.mem.blocks, s'.mem.maxBlock + 1) && Used(s'.mem.blocks, x)
    ensures BlockOf(x) <= s'.mem.maxBlock && s'.mem.nextId == x + 1 && s'.mem.queue == []
  {
    s' := BurnUpTo(o, s, c, n, x);
    s' := ToRmw(o, s', x, n);
    var m := s'.mem;
    assert !Used(m.blocks, x);
    MarkedKeeps(m.blocks, x, true);
    hide Reaches, BlockOf, Used, MarkBlocks, WellFormed, BlockKey;
    s' := Walk(o, s', 0, MarkRmw(x, Minting), true, Effect(m.(blocks := MarkBlocks(m.blocks, x, true)), None, Acquired(x), None), false);
  }

  lemma MarkedKeeps(blocks: Blocks, id: nat, used: bool)
    requires WellFormed(blocks) && BlockKey(BlockOf(id)) in blocks
    ensures WellFormed(MarkBlocks(blocks, id, used)) && Used(MarkBlocks(blocks, id, used), id) == used
    ensures MarkBlocks(blocks, id, used).Keys == blocks.Keys
  {
    WithBitMembership(blocks, id, used, id);
  }

  lemma CreatedOpened(blocks: Blocks)
    requires WellFormed(blocks)
    ensures Opened(Created(blocks), 0, 0)
  {
    CreatedKeeps(blocks);
    assert Stored(Created(blocks).blocks, 1);
    forall b: nat | BlockKey(b) == BlockKey(0)
      ensures b == 0
    {
      BlockKeyInjective(b, 0);
    }
    hide Used, BlockKey;
  }

  lemma LoadOpened(blocks: Blocks, n: nat, lo: nat)
    requires WellFormed(blocks) && Stored(blocks, n) && n > 0
    ensures var m := Load(blocks, n, lo);
            Opened(m, m.nextId, n) && m.nextId <= n * BLOCK_SIZE_IDS
  {
    assert BlockKey(n - 1) in blocks;
    hide Used, BlockKey, FreeIdsDown, LastUsed, WellFormed, Stored;
    var m, last := Load(blocks, n, lo), LastUsed(blocks, lo * BLOCK_SIZE_IDS, n * BLOCK_SIZE_IDS);
    assert m.blocks == blocks && m.maxBlock == n - 1 && m.nextId == (last + 1) % U32_LIMIT && (!m.hasFree ==> m.queue == []);
    hide Load;
    assert -1 <= last < n * BLOCK_SIZE_IDS by { LastUsedIsLast(blocks, lo * BLOCK_SIZE_IDS, n * BLOCK_SIZE_IDS); }
    assert m.nextId <= last + 1;
  }

  lemma RestartOpened(blocks: Blocks, n: nat, lo: nat)
    requires WellFormed(blocks) && Stored(blocks, n)
    ensures var m := Restarted(blocks, n, lo);
            Opened(m, m.nextId, n) && m.nextId <= n * BLOCK_SIZE_IDS
  {
    hide Opened, Load;
    if n == 0 {
      CreatedOpened(blocks);
    } else {
      LoadOpened(blocks, n, lo);
    }
  }

  // ---------------------------------------------------------------- exactly what a restart loses

  /** The last 32-bit ID never gets past the range check of `mark_id`. */
  ghost predicate LastBarred(s: Sys) { s.mem.nextId < U32_LIMIT && forall t :: t in s.pcs ==> LastBarredPc(s.pcs[t]) }

  predicate LastBarredPc(pc: PC) { (pc.MarkCheckBlock? || pc.MarkRmw? || pc.Acquired?) ==> pc.id != U32_MAX }

  lemma LastBarredStep(s: Sys, a: Action)
    requires LastBarred(s) && Enabled(s, a) && Allowed(a, false)
    ensures LastBarred(Apply(s, a))
  {
    hide Used, BlockOf, BlockKey, FreeIds, MarkBlocks;
    if a.Go? {
      var e := StepFrom(s.mem, s.writer, a.t, Pc(s, a.t), a.ok);
      assert e.mem.nextId < U32_LIMIT && LastBarredPc(e.pc);
      hide StepFrom;
    }
  }

  lemma LastBarredStays(s: Sys, s': Sys)
    requires LastBarred(s) && Reaches(s, s', false)
    ensures LastBarred(s')
  {
    hide Enabled, Apply, LastBarred;
    var states, acts := Witness(s, s', false);
    for i := 0 to |acts|
      invariant LastBarred(states[i])
    {
      LastBarredStep(states[i], acts[i]);
    }
  }

  /** For every used ID: after a restart that finds blocks `0 .. n`, some continuation in which nobody frees
      anything returns the ID again if and only if its block was missed - but for the last 32-bit ID,
      which is never returned. */
  lemma ReturnedAgainIff(s: Sys, n: nat, lo: nat, x: nat)
    requires WellFormed(s.mem.blocks) && Enabled(s, Crash(n, lo)) && Used(s.mem.blocks, x)
    ensures CanReturn(Apply(s, Crash(n, lo)), x) <==> n <= BlockOf(x) && x != U32_MAX
  {
    var s0 := Apply(s, Crash(n, lo));
    assert BlockKey(BlockOf(x)) in s.mem.blocks;
    RestartOpened(s.mem.blocks, n, lo);
    if n <= BlockOf(x) && x != U32_MAX {
      assert x + 1 < U32_LIMIT && s0.mem.nextId <= x;
      hide Reaches, Opened, BlockOf, Restarted;
      Here(s0, false);
      var s' := Obtain(s0, s0, s0.mem.nextId, n, x);
      assert EventOf(s', Go(0, true)) == Return(0, x);
    } else if CanReturn(s0, x) {
      assert LastBarred(s0);
      assert BlockOf(x) < n ==> Guarded(s0, x) by { hide Used, BlockOf, BlockKey, LastUsed, FreeIdsDown; }
      var s', t :| Reaches(s0, s', false) && EventOf(s', Go(t, true)) == Return(t, x);
      hide Reaches, Restarted, BlockOf, Used;
      LastBarredStays(s0, s');
      if BlockOf(x) < n {
        GuardedStays(s0, s', x);
      }
    }
  }

  /** Hence the exact condition for uniqueness across a restart: as long as nobody frees anything no ID in use
      is handed out again, whatever the threads and the store do, if and only if no used ID lies in a block
      that was missed. */
  lemma RestartKeepsUniquenessIff(s: Sys, n: nat, lo: nat)
    requires WellFormed(s.mem.blocks) && Enabled(s, Crash(n, lo)) && !Used(s.mem.blocks, U32_MAX)
    ensures (forall x: nat :: Used(s.mem.blocks, x) ==> !CanReturn(Apply(s, Crash(n, lo)), x)) <==> Within(s.mem.blocks, n)
  {
    hide CanReturn, Used, BlockOf, Restarted;
    forall x: nat | Used(s.mem.blocks, x)
      ensures CanReturn(Apply(s, Crash(n, lo)), x) <==> n <= BlockOf(x)
    {
      ReturnedAgainIff(s, n, lo, x);
    }
  }

  /** A new map, no thread in it. */
  ghost function NewMap(): (s: Sys)
    ensures Start(s) && Outside(s) && Opened(s.mem, 0, 0) && s == Sys(Fresh, None, map[], {})
  {
    RestartOpened(map[], 0, 0);
    CreatedKeeps(map[]);
    Sys(Fresh, None, map[], {})
  }

  /** Every ID is concerned: from a new map it can be minted and returned, and after a restart that misses
      its block be returned again, though nobody ever calls `mark_free`. */
  lemma ForgetfulRestart(x: nat, n: nat, lo: nat) returns (s: Sys)
    requires x < U32_MAX && n <= BlockOf(x)
    ensures Reaches(NewMap(), s, false) && Enabled(s, Go(0, true)) && EventOf(s, Go(0, true)) == Return(0, x)
    ensures var s' := Apply(s, Go(0, true));
            Enabled(s', Crash(n, lo)) && CanReturn(Apply(s', Crash(n, lo)), x)
  {
    var o := NewMap();
    hide Reaches, Opened, NewMap, Start, BlockOf;
    Here(o, false);
    s := BurnUpTo(o, o, 0, 0, x);
    s := Obtain(o, s, x, 0, x);
    hide Restarted, Used, WellFormed, CanReturn;
    ReturnedAgainIff(Apply(s, Go(0, true)), n, lo, x);
  }

  // ---------------------------------------------------------------- callers that free what they do not hold

  lemma MarkWalk(o: Sys, s: Sys, t: Tid, id: nat, why: Purpose) returns (s': Sys)
    requires Reaches(o, s, true) && s.writer == None && Pc(s, t) == MarkCheckId(id, why)
    requires id < s.mem.nextId && BlockOf(id) <= s.mem.maxBlock
    requires WellFormed(s.mem.blocks) && BlockKey(BlockOf(id)) in s.mem.blocks && Used(s.mem.blocks, id) == why.Freeing?
    ensures Reaches(o, s', true) && s'.writer == None && s'.mem == s.mem.(blocks := s'.mem.blocks)
    ensures WellFormed(s'.mem.blocks) && s'.mem.blocks.Keys == s.mem.blocks.Keys && Used(s'.mem.blocks, id) == !why.Freeing?
    ensures Pc(s', t) == AfterMark(id, why, true) && forall u :: u != t ==> Pc(s', u) == Pc(s, u)
  {
    var m, used := s.mem, !why.Freeing?;
    MarkedKeeps(m.blocks, id, used);
    var b := MarkBlocks(m.blocks, id, used);
    hide Reaches, BlockOf, BlockKey, Used, MarkBlocks, WellFormed;
    s' := Walk(o, s, t, MarkCheckId(id, why), true, Effect(m, None, MarkCheckBlock(id, why), None), true);
    s' := Walk(o, s', t, MarkCheckBlock(id, why), true, Effect(m, None, MarkRmw(id, why), None), true);
    s' := Walk(o, s', t, MarkRmw(id, why), true, Effect(m.(blocks := b), None, AfterMark(id, why, true), None), true);
  }

  /** Without the discipline the stronger claim is false, restarts or not, for every ID: thread 0 sets its bit
      and pauses before returning it, thread 1 frees it without holding it and allocates it again, and then
      both return it one after the other. */
  lemma UndisciplinedDoubleReturn(x: nat) returns (s: Sys)
    requires x < U32_MAX
    ensures Reaches(NewMap(), s, true) && Enabled(s, Go(1, true)) && EventOf(s, Go(1, true)) == Return(1, x)
    ensures EventOf(Apply(s, Go(1, true)), Go(0, true)) == Return(0, x)
  {
    var o := NewMap();
    hide Reaches, Opened, NewMap, Start, BlockOf, Used, WellFormed, MarkBlocks, BlockKey;
    Here(o, false);
    s := BurnUpTo(o, o, 0, 0, x);
    s := Obtain(o, s, x, 0, x);
    MoreAllowed(o, s);
    s := FreeAndRetake(o, s, x);
  }

  /** Thread 1 can work on `x`: it is minted and its block is there. */
  ghost predicate Workable(m: State, x: nat) {
    WellFormed(m.blocks) && BlockKey(BlockOf(x)) in m.blocks && x < m.nextId && BlockOf(x) <= m.maxBlock
  }

  lemma FreeAndRetake(o: Sys, s: Sys, x: nat) returns (s': Sys)
    requires Reaches(o, s, true) && s.writer == None && Pc(s, 1) == Idle && s.mem.queue == []
    requires WellFormed(s.mem.blocks) && Stored(s.mem.blocks, s.mem.maxBlock + 1) && Used(s.mem.blocks, x)
    requires x < s.mem.nextId && BlockOf(x) <= s.mem.maxBlock
    ensures Reaches(o, s', true) && Pc(s', 1) == Acquired(x) && Pc(s', 0) == Pc(s, 0) && s'.writer == None
    ensures Workable(s'.mem, x) && Used(s'.mem.blocks, x) && s'.mem.queue == [] && s'.mem.hasFree
    ensures s'.mem.maxBlock == s.mem.maxBlock
  {
    assert Workable(s.mem, x);
    hide Reaches, Workable, Used;
    s' := ThreadFrees(o, s, x);
    s' := ThreadTakes(o, s', x);
  }

  lemma ThreadFrees(o: Sys, s: Sys, x: nat) returns (s': Sys)
    requires Reaches(o, s, true) && s.writer == None && Pc(s, 1) == Idle && s.mem.queue == []
    requires Workable(s.mem, x) && Used(s.mem.blocks, x)
    ensures Reaches(o, s', true) && s'.writer == None && Pc(s', 1) == Idle && Pc(s', 0) == Pc(s, 0)
    ensures Workable(s'.mem, x) && !Used(s'.mem.blocks, x) && s'.mem.queue == [x] && s'.mem.hasFree
    ensures s'.mem.maxBlock == s.mem.maxBlock
  {
    hide Reaches, BlockOf, Used, WellFormed, MarkBlocks, BlockKey;
    s' := CallMarkFree(o, s, 1, x);
    s' := MarkWalk(o, s', 1, x, Freeing(x in s.held));
    var m := s'.mem;
    s' := Walk(o, s', 1, FreePush(x), true, Effect(m.(queue := [x]), None, FreeFlag, None), true);
    s' := Walk(o, s', 1, FreeFlag, true, Effect(m.(queue := [x], hasFree := true), None, Idle, None), true);
  }

  lemma ThreadTakes(o: Sys, s: Sys, x: nat) returns (s': Sys)
    requires Reaches(o, s, true) && s.writer == None && Pc(s, 1) == Idle
    requires Workable(s.mem, x) && !Used(s.mem.blocks, x) && s.mem.queue == [x] && s.mem.hasFree
    ensures Reaches(o, s', true) && Pc(s', 1) == Acquired(x) && Pc(s', 0) == Pc(s, 0) && s'.writer == None
    ensures Workable(s'.mem, x) && Used(s'.mem.blocks, x) && s'.mem.queue == [] && s'.mem.hasFree
    ensures s'.mem.maxBlock == s.mem.maxBlock
  {
    hide Reaches, BlockOf, Used, WellFormed, MarkBlocks, BlockKey;
    s' := Call(o, s, 1, true);
    s' := Walk(o, s', 1, CheckFlag, true, Effect(s.mem, None, Pop(true), None), true);
    s' := Walk(o, s', 1, Pop(true), true, Effect(s.mem.(queue := []), None, MarkCheckId(x, Reuse), None), true);
    s' := MarkWalk(o, s', 1, x, Reuse);
  }

  // ---------------------------------------------------------------- a jammed map under two threads

  /** What no sequence of calls does to a jammed map (`FsmRuns.JammedRun`) two overlapping calls can: the
      counter moves, without any release, and every ID beyond the allocated blocks can be had. */
  lemma JammedMintsConcurrently(s: Sys) returns (s': Sys)
    requires Jammed(s.mem) && Outside(s)
    ensures Reaches(s, s', false) && s'.mem.nextId == s.mem.nextId + 1
    ensures forall x: nat :: s.mem.maxBlock < BlockOf(x) && x < U32_MAX ==> CanReturn(s, x)
  {
    var n := s.mem.maxBlock + 1;
    assert Opened(s.mem, s.mem.nextId, n);
    Here(s, false);
    hide Reaches, CanReturn, Used, Valid, Tight;
    s' := Burn(s, s, s.mem.nextId, n);
    forall x: nat | s.mem.maxBlock < BlockOf(x) && x < U32_MAX
      ensures CanReturn(s, x)
    {
      BeyondCanReturn(s, x);
    }
  }

  lemma BeyondCanReturn(s: Sys, x: nat)
    requires Outside(s) && Opened(s.mem, s.mem.nextId, s.mem.maxBlock + 1) && s.mem.maxBlock < BlockOf(x) && x < U32_MAX
    ensures CanReturn(s, x)
  {
    assert s.mem.nextId <= x;
    Here(s, false);
    hide Reaches, Opened, BlockOf, Used;
    var s' := Obtain(s, s, s.mem.nextId, s.mem.maxBlock + 1, x);
    assert EventOf(s', Go(0, true)) == Return(0, x);
  }

  // ---------------------------------------------------------------- a release that is not announced

  /** Where the flag goes wrong (`FsmCalls.FlagStepIff`): thread 0 ends a refill that found nothing after thread 1
      has released `x`. The flag is down and `x` stays in the queue, so that allocations mint and do not reuse it. */
  lemma ReleaseIsMissed(o: Sys, s: Sys, x: nat) returns (s': Sys)
    requires Reaches(o, s, true) && Outside(s) && s.mem.hasFree && s.mem.queue == [] && s.mem.maxBlock == 0
    requires Workable(s.mem, x) && Used(s.mem.blocks, x)
    ensures Reaches(o, s', true) && s'.writer == None && Pc(s', 0) == FetchAdd && Pc(s', 1) == Idle
    ensures s'.mem.queue == [x] && !s'.mem.hasFree && !Used(s'.mem.blocks, x)
  {
    hide Reaches, Used;
    var why := Freeing(x in s.held);
    s' := ToRefill(o, s, x);
    s' := ScanNothing(o, s', x, why);
    s' := ReleaseMeanwhile(o, s', x, why);
    s' := Walk(o, s', 0, RefillEnd(false), true, Effect(s'.mem.(hasFree := false), None, FetchAdd, None), true);
  }

  /** Thread 0 is about to refill, thread 1 about to clear the bit of `x`. */
  lemma ToRefill(o: Sys, s: Sys, x: nat) returns (s': Sys)
    requires Reaches(o, s, true) && Outside(s) && s.mem.hasFree && s.mem.queue == [] && Workable(s.mem, x)
    ensures Reaches(o, s', true) && s'.mem == s.mem && s'.writer == None
    ensures Pc(s', 0) == RefillLock && Pc(s', 1) == MarkRmw(x, Freeing(x in s.held))
  {
    hide Reaches, WellFormed, BlockKey, BlockOf;
    var m, why := s.mem, Freeing(x in s.held);
    s' := Call(o, s, 0, true);
    s' := Walk(o, s', 0, CheckFlag, true, Effect(m, None, Pop(true), None), true);
    s' := Walk(o, s', 0, Pop(true), true, Effect(m, None, RefillLock, None), true);
    s' := CallMarkFree(o, s', 1, x);
    s' := Walk(o, s', 1, MarkCheckId(x, why), true, Effect(m, None, MarkCheckBlock(x, why), None), true);
    s' := Walk(o, s', 1, MarkCheckBlock(x, why), true, Effect(m, None, MarkRmw(x, why), None), true);
  }

  /** Thread 0 takes the lock and scans; with one block there is nothing to scan. */
  lemma ScanNothing(o: Sys, s: Sys, x: nat, why: Purpose) returns (s': Sys)
    requires Reaches(o, s, true) && s.writer == None && s.mem.queue == [] && s.mem.maxBlock == 0
    requires Pc(s, 0) == RefillLock && Pc(s, 1) == MarkRmw(x, why)
    ensures Reaches(o, s', true) && s'.mem == s.mem && s'.writer == Some(0)
    ensures Pc(s', 0) == RefillEnd(false) && Pc(s', 1) == MarkRmw(x, why)
  {
    hide Reaches, FreeIds;
    var m := s.mem;
    s' := Walk(o, s, 0, RefillLock, true, Effect(m, Some(0), RefillPeek, None), true);
    s' := Walk(o, s', 0, RefillPeek, true, Effect(m, Some(0), RefillRead(0, false), None), true);
    s' := Walk(o, s', 0, RefillRead(0, false), true, Effect(m, Some(0), RefillEnd(false), None), true);
  }

  /** Meanwhile thread 1 clears the bit, pushes the ID and raises the flag. */
  lemma ReleaseMeanwhile(o: Sys, s: Sys, x: nat, why: Purpose) returns (s': Sys)
    requires Reaches(o, s, true) && s.mem.queue == [] && why.Freeing?
    requires Workable(s.mem, x) && Used(s.mem.blocks, x) && Pc(s, 1) == MarkRmw(x, why)
    ensures Reaches(o, s', true) && s'.writer == s.writer && Pc(s', 0) == Pc(s, 0) && Pc(s', 1) == Idle
    ensures s'.mem.queue == [x] && s'.mem.hasFree && !Used(s'.mem.blocks, x)
  {
    var m, w, b := s.mem, s.writer, MarkBlocks(s.mem.blocks, x, false);
    MarkedKeeps(m.blocks, x, false);
    hide Reaches, Used, WellFormed, BlockKey, BlockOf, MarkBlocks;
    s' := Walk(o, s, 1, MarkRmw(x, why), true, Effect(m.(blocks := b), w, FreePush(x), None), true);
    s' := Walk(o, s', 1, FreePush(x), true, Effect(m.(blocks := b, queue := [x]), w, FreeFlag, None), true);
    s' := Walk(o, s', 1, FreeFlag, true, Effect(m.(blocks := b, queue := [x], hasFree := true), w, Idle, None), true);
  }

  /** A new map gets there: ID 0 is taken, released and taken again, and then released during a refill. */
  lemma ReleaseIsMissedFromNew() returns (s: Sys)
    ensures Reaches(NewMap(), s, true) && s.mem.queue == [0] && !s.mem.hasFree && !Used(s.mem.blocks, 0) && Pc(s, 1) == Idle
  {
    var o := NewMap();
    assert BlockOf(0) == 0 && o.mem.maxBlock == 0;
    hide Reaches, NewMap, Start, Used, BlockOf, BlockKey;
    Here(o, false);
    s := ToRmw(o, o, 0, 0);
    var m := s.mem;
    assert !Used(m.blocks, 0) && BlockKey(BlockOf(0)) in m.blocks;
    MarkedKeeps(m.blocks, 0, true);
    hide Opened, WellFormed, MarkBlocks;
    s := Walk(o, s, 0, MarkRmw(0, Minting), true, Effect(m.(blocks := MarkBlocks(m.blocks, 0, true)), None, Acquired(0), None), false);
    MoreAllowed(o, s);
    StillStored(m.blocks, s.mem.blocks);
    s := FreeAndRetake(o, s, 0);
    hide Workable;
    s := Walk(o, s, 0, Acquired(0), true, Effect(s.mem, None, Idle, Some(0)), true);
    s := Walk(o, s, 1, Acquired(0), true, Effect(s.mem, None, Idle, Some(0)), true);
    s := ReleaseIsMissed(o, s, 0);
  }

  lemma StillStored(a: Blocks, b: Blocks)
    requires a.Keys == b.Keys
    ensures forall n: nat :: Stored(a, n) ==> Stored(b, n)
  {
    hide BlockKey;
    forall n: nat | Stored(a, n)
      ensures Stored(b, n)
    {
      assert forall k :: k in a <==> k in b;
    }
  }
}
