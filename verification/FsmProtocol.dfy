/** The free space map under any number of threads. A thread advances by single atomic steps - one
    queue push or pop, one read-modify-write of one block, one fetch-and-add, one access to the
    `max_block` lock - and steps of different threads interleave in any order. Store operations may
    fail at any point, and the process may be killed and restarted from the store at any point. The reads
    of a restart may fail like any other; what a restart must have seen is the predicate `Complete`. */
module FsmProtocol {
  import opened Collections
  import opened FsmLayout
  import opened FsmSpec

  type Tid = nat

  /** Why an ID is being marked: reused from the queue, newly minted, or freed. `owned` records
      whether the caller of `mark_free` held the ID. */
  datatype Purpose = Reuse | Minting | Freeing(owned: bool)

  /** Where a thread stands; each constructor but `Idle` is about to take one atomic step. */
  datatype PC =
    | Idle
    | CheckFlag
    | Pop(retry: bool)
    | MarkCheckId(id: nat, why: Purpose)
    | MarkCheckBlock(id: nat, why: Purpose)
    | MarkRmw(id: nat, why: Purpose)
    | FreePush(id: nat)
    | FreeFlag
    | RefillLock
    | RefillPeek
    | RefillRead(block: nat, found: bool)
    | RefillFlag(block: nat, pending: seq<nat>)
    | RefillPush(block: nat, pending: seq<nat>)
    | RefillEnd(found: bool)
    | FetchAdd
    | MintCheckBlock(id: nat)
    | ExpandLock(id: nat)
    | ExpandWrite(id: nat)
    | ExpandBump(id: nat)
    | Acquired(id: nat)

  /** Shared memory and store, the holder of the write lock, the threads, and - for stating
      properties only - the IDs that callers hold: returned to them and not yet given back. */
  datatype Sys = Sys(mem: State, writer: Option<Tid>, pcs: map<Tid, PC>, held: set<nat>)

  datatype Action =
    | CallNext(t: Tid)
    | CallFree(t: Tid, id: nat)
    | Go(t: Tid, ok: bool)
    | Crash(n: nat, lo: nat)

  datatype Event = Quiet | Flip(t: Tid, id: nat) | Clear(t: Tid, id: nat) | Return(t: Tid, id: nat)

  function Pc(s: Sys, t: Tid): PC { if t in s.pcs then s.pcs[t] else Idle }

  predicate HoldsLock(pc: PC) {
    || pc.RefillPeek? || pc.RefillRead? || pc.RefillFlag? || pc.RefillPush? || pc.RefillEnd?
    || pc.ExpandWrite? || pc.ExpandBump?
  }

  /** Steps that read or take the lock wait while a writer holds it. */
  predicate NeedsLock(pc: PC) {
    pc.RefillLock? || pc.ExpandLock? || pc.MarkCheckBlock? || pc.MintCheckBlock?
  }

  /** The outcome of one step of one thread: new memory, new lock holder, new position, and the ID
      handed to the caller by it, if any. */
  datatype Effect = Effect(mem: State, writer: Option<Tid>, pc: PC, gives: Option<nat>)

  /** Leave `mark_id` with an error. A caller that was freeing its own ID still has it. */
  function MarkFails(m: State, w: Option<Tid>, id: nat, why: Purpose): Effect {
    Effect(m, w, Idle, if why == Freeing(true) then Some(id) else None)
  }

  function AfterMark(id: nat, why: Purpose, changed: bool): PC {
    match why
    case Reuse => if changed then Acquired(id) else Pop(true)
    case Minting => if changed then Acquired(id) else FetchAdd
    case Freeing(_) => if changed then FreePush(id) else Idle
  }

  function MarkBlocks(blocks: Blocks, id: nat, used: bool): Blocks {
    var key := BlockKey(BlockOf(id));
    if key in blocks && |blocks[key]| == BLOCK_SIZE_BYTES then WithBit(blocks, id, used) else blocks
  }

  function StepFrom(m: State, w: Option<Tid>, t: Tid, pc: PC, ok: bool): Effect {
    match pc
    case Idle => Effect(m, w, Idle, None)
    case CheckFlag => Effect(m, w, if m.hasFree then Pop(true) else FetchAdd, None)
    case Pop(retry) =>
      if m.queue == [] then Effect(m, w, if retry then RefillLock else FetchAdd, None)
      else Effect(m.(queue := m.queue[1..]), w, MarkCheckId(m.queue[0], Reuse), None)
    case MarkCheckId(id, why) =>
      if id >= m.nextId then MarkFails(m, w, id, why) else Effect(m, w, MarkCheckBlock(id, why), None)
    case MarkCheckBlock(id, why) =>
      if BlockOf(id) > m.maxBlock then MarkFails(m, w, id, why) else Effect(m, w, MarkRmw(id, why), None)
    case MarkRmw(id, why) =>
      if !ok then MarkFails(m, w, id, why)
      else
        var used := !why.Freeing?;
        Effect(m.(blocks := MarkBlocks(m.blocks, id, used)), w,
               AfterMark(id, why, Used(m.blocks, id) != used), None)
    case FreePush(id) => Effect(m.(queue := Push(m.queue, id)), w, FreeFlag, None)
    case FreeFlag => Effect(m.(hasFree := true), w, Idle, None)
    case RefillLock => Effect(m, Some(t), RefillPeek, None)
    case RefillPeek =>
      if m.queue != [] then Effect(m, None, Pop(false), None) else Effect(m, w, RefillRead(0, false), None)
    case RefillRead(b, found) =>
      if b >= m.maxBlock then Effect(m, w, RefillEnd(found), None)
      else if !ok then Effect(m, None, Idle, None)
      else
        var pending := FreeIds(m.blocks, b * BLOCK_SIZE_IDS, (b + 1) * BLOCK_SIZE_IDS);
        Effect(m, w, if pending == [] then RefillRead(b + 1, found) else RefillFlag(b, pending), None)
    case RefillFlag(b, pending) => Effect(m.(hasFree := true), w, RefillPush(b, pending), None)
    case RefillPush(b, pending) =>
      if |m.queue| >= FAST_SIZE || pending == [] then Effect(m, w, RefillEnd(true), None)
      else Effect(m.(queue := m.queue + [pending[0]]), w,
                  if |pending| == 1 then RefillRead(b + 1, true) else RefillFlag(b, pending[1..]), None)
    case RefillEnd(found) =>
      Effect(if found then m else m.(hasFree := false), None, if found then Pop(false) else FetchAdd, None)
    case FetchAdd =>
      Effect(m.(nextId := (m.nextId + 1) % U32_LIMIT), w, MintCheckBlock(m.nextId), None)
    case MintCheckBlock(id) =>
      Effect(m, w, if BlockOf(id) > m.maxBlock then ExpandLock(id) else MarkCheckId(id, Minting), None)
    case ExpandLock(id) =>
      if BlockOf(id) == m.maxBlock + 1 then Effect(m, Some(t), ExpandWrite(id), None)
      else if BlockOf(id) > m.maxBlock + 1 then Effect(m, w, Idle, None)
      else Effect(m, w, MarkCheckId(id, Minting), None)
    case ExpandWrite(id) =>
      if !ok then Effect(m, None, Idle, None)
      else Effect(m.(blocks := m.blocks[BlockKey(BlockOf(id)) := ZeroBlock()]), w, ExpandBump(id), None)
    case ExpandBump(id) => Effect(m.(maxBlock := m.maxBlock + 1), None, MarkCheckId(id, Minting), None)
    case Acquired(id) => Effect(m, w, Idle, Some(id))
  }

  /** The ID a thread is giving back, up to the step that clears its bit. */
  function Returning(pc: PC): Option<nat> {
    match pc
    case MarkCheckId(id, Freeing(true)) => Some(id)
    case MarkCheckBlock(id, Freeing(true)) => Some(id)
    case MarkRmw(id, Freeing(true)) => Some(id)
    case _ => None
  }

  ghost predicate Enabled(s: Sys, a: Action) {
    match a
    case CallNext(t) => Pc(s, t) == Idle
    case CallFree(t, _) => Pc(s, t) == Idle
    case Go(t, _) => Pc(s, t) != Idle && (NeedsLock(Pc(s, t)) ==> s.writer == None)
    case Crash(n, _) => Stored(s.mem.blocks, n)
  }

  /** A new process whose existence reads find blocks `0 .. n` - it starts over if they find none - and whose
      data reads fail below block `lo`. */
  function Restarted(blocks: Blocks, n: nat, lo: nat): State {
    if n == 0 then Created(blocks) else Load(blocks, n, lo)
  }

  /** A restart has found every block that holds a used ID. */
  ghost predicate Complete(s: Sys, a: Action) { a.Crash? ==> Within(s.mem.blocks, a.n) }

  /** IDs that were being given back when the process died are still in use. */
  ghost function Interrupted(s: Sys): set<nat> {
    set t | t in s.pcs && Returning(s.pcs[t]).Some? :: Returning(s.pcs[t]).value
  }

  ghost function Apply(s: Sys, a: Action): Sys
    requires Enabled(s, a)
  {
    match a
    case CallNext(t) => s.(pcs := s.pcs[t := CheckFlag])
    case CallFree(t, id) => s.(pcs := s.pcs[t := MarkCheckId(id, Freeing(id in s.held))], held := s.held - {id})
    case Go(t, ok) =>
      var e := StepFrom(s.mem, s.writer, t, Pc(s, t), ok);
      Sys(e.mem, e.writer, s.pcs[t := e.pc], s.held + (if e.gives.Some? then {e.gives.value} else {}))
    case Crash(n, lo) => Sys(Restarted(s.mem.blocks, n, lo), None, map[], s.held + Interrupted(s))
  }

  /** What a step looks like from outside: a bit set by an allocation, a bit cleared by a release, an
      ID returned to a caller, or nothing. */
  function EventOf(s: Sys, a: Action): Event {
    if !a.Go? then Quiet
    else
      match Pc(s, a.t)
      case MarkRmw(id, why) =>
        if !a.ok || Used(s.mem.blocks, id) != why.Freeing? then Quiet
        else if why.Freeing? then Clear(a.t, id) else Flip(a.t, id)
      case Acquired(id) => Return(a.t, id)
      case _ => Quiet
  }

  // ---------------------------------------------------------------- structural invariant

  /** What a thread's position promises about the shared state. */
  predicate PcSafe(m: State, pc: PC) {
    match pc
    case MarkRmw(id, _) => BlockOf(id) <= m.maxBlock
    case ExpandWrite(id) => BlockOf(id) == m.maxBlock + 1
    case ExpandBump(id) => BlockOf(id) == m.maxBlock + 1 && BlockKey(BlockOf(id)) in m.blocks
    case _ => true
  }

  /** The blocks up to `max_block` are stored whole and no used ID lies beyond them. */
  ghost predicate MemSafe(m: State) { Covers(m.blocks, m.maxBlock + 1) }

  ghost predicate Safe(s: Sys) {
    && MemSafe(s.mem)
    && (forall t :: t in s.pcs && HoldsLock(s.pcs[t]) ==> s.writer == Some(t))
    && (forall t :: t in s.pcs ==> PcSafe(s.mem, s.pcs[t]))
  }

  /** One step of one thread: what happens to memory, to membership and to its own promise. */
  lemma StepFromSafe(m: State, w: Option<Tid>, t: Tid, pc: PC, ok: bool)
    requires MemSafe(m) && PcSafe(m, pc)
    requires HoldsLock(pc) ==> w == Some(t)
    requires NeedsLock(pc) ==> w == None
    ensures var e := StepFrom(m, w, t, pc, ok);
            && MemSafe(e.mem) && PcSafe(e.mem, e.pc)
            && (HoldsLock(e.pc) ==> e.writer == Some(t))
            && (e.writer != w ==> HoldsLock(pc) || w == None)
            && m.maxBlock <= e.mem.maxBlock
            && (m.maxBlock < e.mem.maxBlock ==> HoldsLock(pc))
            && (forall k :: k in m.blocks ==> k in e.mem.blocks)
            && (pc.MarkRmw? && ok ==>
                  forall x: nat :: Used(e.mem.blocks, x) == if x == pc.id then !pc.why.Freeing? else Used(m.blocks, x))
            && (!(pc.MarkRmw? && ok) ==> SameUsed(m.blocks, e.mem.blocks))
  {
    hide Used, BlockOf, BlockKey, Covers, StepFrom;
    match pc
    case MarkRmw(id, why) =>
      RmwTable(m, w, t, id, why, ok);
      if ok { MarkStep(m, id, !why.Freeing?); }
    case ExpandWrite(id) =>
      ExpandTable(m, w, t, id, ok);
      ExpandStep(m, id);
    case ExpandBump(id) =>
      ExpandTable(m, w, t, id, ok);
      BumpStep(m);
    case _ =>
      OtherStep(m, w, t, pc, ok);
  }

  lemma RmwTable(m: State, w: Option<Tid>, t: Tid, id: nat, why: Purpose, ok: bool)
    ensures var e := StepFrom(m, w, t, MarkRmw(id, why), ok);
            && e.mem == (if ok then m.(blocks := MarkBlocks(m.blocks, id, !why.Freeing?)) else m)
            && e.writer == w && !HoldsLock(e.pc) && PcSafe(e.mem, e.pc)
  {
    hide Used, BlockOf, BlockKey;
  }

  lemma ExpandTable(m: State, w: Option<Tid>, t: Tid, id: nat, ok: bool)
    ensures StepFrom(m, w, t, ExpandWrite(id), ok)
            == if ok then Effect(m.(blocks := m.blocks[BlockKey(BlockOf(id)) := ZeroBlock()]), w, ExpandBump(id), None)
               else Effect(m, None, Idle, None)
    ensures StepFrom(m, w, t, ExpandBump(id), ok)
            == Effect(m.(maxBlock := m.maxBlock + 1), None, MarkCheckId(id, Minting), None)
  {
    hide BlockOf, BlockKey;
  }

  /** The remaining steps touch neither the blocks nor `max_block`. */
  lemma OtherStep(m: State, w: Option<Tid>, t: Tid, pc: PC, ok: bool)
    requires !pc.MarkRmw? && !pc.ExpandWrite? && !pc.ExpandBump?
    requires HoldsLock(pc) ==> w == Some(t)
    requires NeedsLock(pc) ==> w == None
    ensures var e := StepFrom(m, w, t, pc, ok);
            && e.mem.blocks == m.blocks && e.mem.maxBlock == m.maxBlock
            && PcSafe(m, e.pc)
            && (HoldsLock(e.pc) ==> e.writer == Some(t))
            && (e.writer != w ==> HoldsLock(pc) || w == None)
  {
    hide Used, BlockOf, BlockKey, FreeIds;
  }

  lemma MarkStep(m: State, id: nat, used: bool)
    requires MemSafe(m) && BlockOf(id) <= m.maxBlock
    ensures MemSafe(m.(blocks := MarkBlocks(m.blocks, id, used)))
    ensures forall k :: k in m.blocks ==> k in MarkBlocks(m.blocks, id, used)
    ensures forall x: nat :: Used(MarkBlocks(m.blocks, id, used), x) == if x == id then used else Used(m.blocks, x)
  {
    forall x: nat
      ensures Used(MarkBlocks(m.blocks, id, used), x) == if x == id then used else Used(m.blocks, x)
    {
      WithBitMembership(m.blocks, id, used, x);
    }
  }

  /** An expansion writes zeroes over a block in which nothing is used. */
  lemma ExpandStep(m: State, id: nat)
    requires MemSafe(m) && BlockOf(id) == m.maxBlock + 1
    ensures var blocks := m.blocks[BlockKey(BlockOf(id)) := ZeroBlock()];
            MemSafe(m.(blocks := blocks)) && SameUsed(m.blocks, blocks)
  {
    forall x: nat
      ensures Used(m.blocks[BlockKey(BlockOf(id)) := ZeroBlock()], x) == Used(m.blocks, x)
    {
      AddZeroBlock(m.blocks, BlockOf(id), x);
    }
  }

  lemma BumpStep(m: State)
    requires MemSafe(m) && BlockKey(m.maxBlock + 1) in m.blocks
    ensures MemSafe(m.(maxBlock := m.maxBlock + 1))
  {
  }

  lemma GoSafe(s: Sys, t: Tid, ok: bool)
    requires Safe(s) && Enabled(s, Go(t, ok))
    ensures Safe(Apply(s, Go(t, ok)))
  {
    hide Used, BlockOf, BlockKey, MemSafe, StepFrom;
    StepFromSafe(s.mem, s.writer, t, Pc(s, t), ok);
  }

  /** Every step of every thread, and every complete restart, keeps the structural invariant. */
  lemma StepSafe(s: Sys, a: Action)
    requires Safe(s) && Enabled(s, a) && Complete(s, a)
    ensures Safe(Apply(s, a))
  {
    assert WholeBlocks(s.mem.blocks);
    hide Used, BlockOf, BlockKey, MemSafe;
    match a
    case Go(t, ok) =>
      GoSafe(s, t, ok);
    case Crash(n, lo) =>
      RestartSafeIff(s.mem.blocks, n, lo);
      hide Restarted;
    case _ =>
  }

  /** A restart keeps the invariant and every membership if and only if no used ID lies at or above block
      `n`, the first one that its existence reads missed. What it costs otherwise is shown in `FsmHazards`. */
  lemma RestartSafeIff(blocks: Blocks, n: nat, lo: nat)
    requires WholeBlocks(blocks) && Stored(blocks, n)
    ensures var m := Restarted(blocks, n, lo);
            MemSafe(m) && SameUsed(blocks, m.blocks) <==> Within(blocks, n)
  {
    if n == 0 {
      CreatedKeeps(blocks);
      assert Stored(Created(blocks).blocks, 1);
    }
    hide Used, BlockOf, BlockKey, FreeIdsDown, LastUsed;
  }

  /** Membership of an ID changes at an event of that ID and at no other step: an allocation's event
      finds it free and leaves it used, a release's event finds it used and leaves it free. */
  lemma EventLaw(s: Sys, a: Action, id: nat)
    requires Safe(s) && Enabled(s, a) && Complete(s, a)
    ensures var before, after := Used(s.mem.blocks, id), Used(Apply(s, a).mem.blocks, id);
            match EventOf(s, a)
            case Flip(_, x) => if x == id then !before && after else before == after
            case Clear(_, x) => if x == id then before && !after else before == after
            case _ => before == after
  {
    hide BlockOf, BlockKey, Used;
    if a.Go? {
      StepFromSafe(s.mem, s.writer, a.t, Pc(s, a.t), a.ok);
      hide StepFrom;
    } else if a.Crash? {
      RestartSafeIff(s.mem.blocks, a.n, a.lo);
      hide Restarted;
    }
  }
}
