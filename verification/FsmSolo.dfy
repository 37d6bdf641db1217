/** The threads of `FsmProtocol` are the allocator: one thread running alone, with a working store, takes
    the shared state from where it is to exactly where the sequential operation takes it. */
module FsmSolo {
  import opened Collections
  import opened FsmLayout
  import opened FsmSpec
  import opened FsmProtocol
  import opened FsmReach

  /** Memory, lock and position of a thread running alone. */
  datatype Config = Config(mem: State, writer: Option<Tid>, pc: PC)

  function One(c: Config, t: Tid): Config {
    var e := StepFrom(c.mem, c.writer, t, c.pc, true);
    Config(e.mem, e.writer, e.pc)
  }

  function Steps(c: Config, t: Tid, n: nat): Config {
    if n == 0 then c else One(Steps(c, t, n - 1), t)
  }

  lemma {:induction false} StepsAdd(c: Config, t: Tid, a: nat, b: nat)
    ensures Steps(c, t, a + b) == Steps(Steps(c, t, a), t, b)
  {
    hide One;
    if b > 0 { StepsAdd(c, t, a, b - 1); }
  }

  /** The thread is inside an operation and, where its next step needs the lock, the lock is free. */
  predicate Able(c: Config) { c.pc != Idle && (NeedsLock(c.pc) ==> c.writer == None) }

  /** `c` leads to `d` in some number of steps, each of which the protocol allows. */
  ghost predicate Leads(c: Config, t: Tid, d: Config) {
    exists n: nat :: Steps(c, t, n) == d && forall k: nat :: k < n ==> Able(Steps(c, t, k))
  }

  lemma Stay(c: Config, t: Tid)
    ensures Leads(c, t, c)
  {
    assert Steps(c, t, 0) == c;
  }

  lemma Then(c: Config, t: Tid, d: Config)
    requires Able(c) && Leads(One(c, t), t, d)
    ensures Leads(c, t, d)
  {
    hide One, Able;
    assert Steps(c, t, 0) == c;
    assert Steps(c, t, 1) == One(c, t);
    Chain(c, t, One(c, t), d);
  }

  lemma Chain(c: Config, t: Tid, d: Config, e: Config)
    requires Leads(c, t, d) && Leads(d, t, e)
    ensures Leads(c, t, e)
  {
    hide Steps, Able;
    var a: nat :| Steps(c, t, a) == d && forall k: nat :: k < a ==> Able(Steps(c, t, k));
    var b: nat :| Steps(d, t, b) == e && forall k: nat :: k < b ==> Able(Steps(d, t, k));
    StepsAdd(c, t, a, b);
    forall k: nat | k < a + b
      ensures Able(Steps(c, t, k))
    {
      if k >= a { StepsAdd(c, t, a, k - a); }
    }
    assert Steps(c, t, a + b) == e;
  }

  function ConfigOf(s: Sys, t: Tid): Config { Config(s.mem, s.writer, Pc(s, t)) }

  lemma OneIsApply(s: Sys, t: Tid)
    requires Able(ConfigOf(s, t))
    ensures Enabled(s, Go(t, true)) && ConfigOf(Apply(s, Go(t, true)), t) == One(ConfigOf(s, t), t)
    ensures forall u :: u != t ==> Pc(Apply(s, Go(t, true)), u) == Pc(s, u)
  {
    hide StepFrom;
  }

  /** Such steps are a path of the protocol in which only `t` moves. */
  lemma LeadsReaches(o: Sys, s: Sys, t: Tid, d: Config, frees: bool) returns (s': Sys)
    requires Reaches(o, s, frees) && Leads(ConfigOf(s, t), t, d)
    ensures Reaches(o, s', frees) && ConfigOf(s', t) == d && forall u :: u != t ==> Pc(s', u) == Pc(s, u)
  {
    hide Enabled, Apply, Able, One, ConfigOf, Pc, Reaches;
    var c := ConfigOf(s, t);
    var n: nat :| Steps(c, t, n) == d && forall k: nat :: k < n ==> Able(Steps(c, t, k));
    s' := s;
    for k := 0 to n
      invariant Reaches(o, s', frees) && ConfigOf(s', t) == Steps(c, t, k)
      invariant forall u :: u != t ==> Pc(s', u) == Pc(s, u)
    {
      assert Able(Steps(c, t, k));
      OneIsApply(s', t);
      Move(o, s', Go(t, true), frees);
      s' := Apply(s', Go(t, true));
    }
  }

  // ---------------------------------------------------------------- mark_id

  /** Where `mark_id` leaves a thread. */
  function MarkedPc(m: State, id: nat, why: Purpose): PC
    requires Valid(m)
  {
    var r := Mark(m, id, !why.Freeing?).1;
    if r.Err? then Idle else if why.Freeing? then Idle else AfterMark(id, why, r.value)
  }

  lemma MarkAlone(m: State, t: Tid, id: nat, why: Purpose)
    requires Valid(m)
    ensures Leads(Config(m, None, MarkCheckId(id, why)), t, Config(Mark(m, id, !why.Freeing?).0, None, MarkedPc(m, id, why)))
  {
    hide Used, BlockOf, BlockKey, Leads, WithBit;
    var used := !why.Freeing?;
    var (m', r) := Mark(m, id, used);
    var d := Config(m', None, MarkedPc(m, id, why));
    var c0 := Config(m, None, MarkCheckId(id, why));
    if id >= m.nextId {
      Stay(d, t);
    } else {
      var c1 := Config(m, None, MarkCheckBlock(id, why));
      if BlockOf(id) > m.maxBlock {
        Stay(d, t);
      } else {
        var c2 := Config(m, None, MarkRmw(id, why));
        var changed := Used(m.blocks, id) != used;
        var c3 := Config(m.(blocks := WithBit(m.blocks, id, used)), None, AfterMark(id, why, changed));
        assert One(c2, t) == c3;
        if why.Freeing? && changed {
          var c4 := Config(c3.mem.(queue := Push(m.queue, id)), None, FreeFlag);
          assert One(c3, t) == c4 && One(c4, t) == d;
          Stay(d, t);
          Then(c4, t, d);
          Then(c3, t, d);
        } else {
          Stay(d, t);
        }
        Then(c2, t, d);
      }
      Then(c1, t, d);
    }
    Then(c0, t, d);
  }

  // ---------------------------------------------------------------- refill

  lemma {:induction false} FreeIdsSplit(blocks: Blocks, lo: nat, mid: nat, hi: nat)
    requires lo <= mid <= hi
    ensures FreeIds(blocks, lo, hi) == FreeIds(blocks, lo, mid) + FreeIds(blocks, mid, hi)
    decreases hi - mid
  {
    hide Used;
    if mid < hi { FreeIdsSplit(blocks, lo, mid, hi - 1); }
  }

  /** Pushing the free IDs of one block: all of them, or as many as fill the queue. */
  lemma {:induction false} PushAlone(m: State, t: Tid, b: nat, pending: seq<nat>)
    requires pending != [] && |m.queue| <= FAST_SIZE
    ensures var all := m.queue + pending;
            Leads(Config(m, Some(t), RefillFlag(b, pending)), t,
                  Config(m.(hasFree := true, queue := Take(all, FAST_SIZE)), Some(t),
                         if |all| <= FAST_SIZE then RefillRead(b + 1, true) else RefillEnd(true)))
    decreases |pending|
  {
    hide Leads;
    var all := m.queue + pending;
    var c0 := Config(m, Some(t), RefillFlag(b, pending));
    var m1 := m.(hasFree := true);
    var c1 := Config(m1, Some(t), RefillPush(b, pending));
    var d := Config(m1.(queue := Take(all, FAST_SIZE)), Some(t),
                    if |all| <= FAST_SIZE then RefillRead(b + 1, true) else RefillEnd(true));
    assert One(c0, t) == c1;
    if |m.queue| == FAST_SIZE {
      assert all[..FAST_SIZE] == m.queue;
      assert One(c1, t) == d;
      Stay(d, t);
    } else {
      var m2 := m1.(queue := m.queue + [pending[0]]);
      if |pending| == 1 {
        assert m.queue + [pending[0]] == all;
        assert One(c1, t) == d;
        Stay(d, t);
      } else {
        assert One(c1, t) == Config(m2, Some(t), RefillFlag(b, pending[1..]));
        PushAlone(m2, t, b, pending[1..]);
        assert m2.queue + pending[1..] == all;
      }
    }
    Then(c1, t, d);
    Then(c0, t, d);
  }

  /** The scan from block `b` on, with the blocks before it already in the queue. */
  lemma {:induction false} ScanAlone(m: State, t: Tid, b: nat)
    requires b <= m.maxBlock && m.hasFree && |m.queue| <= FAST_SIZE
    requires m.queue == FreeIds(m.blocks, 0, b * BLOCK_SIZE_IDS)
    ensures var free := FreeIds(m.blocks, 0, m.maxBlock * BLOCK_SIZE_IDS);
            Leads(Config(m, Some(t), RefillRead(b, m.queue != [])), t,
                  Config(m.(queue := Take(free, FAST_SIZE)), Some(t), RefillEnd(free != [])))
    decreases m.maxBlock - b
  {
    hide Leads, FreeIds;
    var free := FreeIds(m.blocks, 0, m.maxBlock * BLOCK_SIZE_IDS);
    var d := Config(m.(queue := Take(free, FAST_SIZE)), Some(t), RefillEnd(free != []));
    var c0 := Config(m, Some(t), RefillRead(b, m.queue != []));
    if b == m.maxBlock {
      assert One(c0, t) == d;
      Stay(d, t);
    } else {
      var pending := FreeIds(m.blocks, b * BLOCK_SIZE_IDS, (b + 1) * BLOCK_SIZE_IDS);
      FreeIdsSplit(m.blocks, 0, b * BLOCK_SIZE_IDS, (b + 1) * BLOCK_SIZE_IDS);
      FreeIdsPrefix(m.blocks, 0, (b + 1) * BLOCK_SIZE_IDS, m.maxBlock * BLOCK_SIZE_IDS);
      var all := m.queue + pending;
      var m1 := m.(queue := Take(all, FAST_SIZE));
      if pending == [] {
        assert all == m.queue;
        ScanAlone(m, t, b + 1);
        assert One(c0, t) == Config(m, Some(t), RefillRead(b + 1, m.queue != []));
      } else {
        var c1 := Config(m, Some(t), RefillFlag(b, pending));
        assert One(c0, t) == c1;
        PushAlone(m, t, b, pending);
        var c2 := Config(m1, Some(t), if |all| <= FAST_SIZE then RefillRead(b + 1, true) else RefillEnd(true));
        if |all| <= FAST_SIZE {
          ScanAlone(m1, t, b + 1);
        } else {
          assert free[..FAST_SIZE] == all[..FAST_SIZE];
          Stay(d, t);
        }
        Chain(c1, t, c2, d);
      }
    }
    Then(c0, t, d);
  }

  lemma RefillAlone(m: State, t: Tid)
    requires m.hasFree && m.queue == []
    ensures Leads(Config(m, None, RefillLock), t,
                  Config(Refill(m).0, None, if Refill(m).1 then Pop(false) else FetchAdd))
  {
    hide Leads, FreeIds;
    var (m', found) := Refill(m);
    var d := Config(m', None, if found then Pop(false) else FetchAdd);
    var c0, c1, c2 := Config(m, None, RefillLock), Config(m, Some(t), RefillPeek), Config(m, Some(t), RefillRead(0, false));
    assert One(c0, t) == c1 && One(c1, t) == c2;
    NoneBelowZero(m.blocks);
    ScanAlone(m, t, 0);
    var c3 := Config(m.(queue := m'.queue), Some(t), RefillEnd(found));
    assert One(c3, t) == d;
    Stay(d, t);
    Then(c3, t, d);
    Chain(c2, t, c3, d);
    Then(c1, t, d);
    Then(c0, t, d);
  }

  lemma NoneBelowZero(blocks: Blocks)
    ensures FreeIds(blocks, 0, 0) == []
  {
  }

  // ---------------------------------------------------------------- next_id

  /** Where `next_id` leaves a thread: about to return the ID, or out with an error. */
  function AllocatedPc(r: Result<nat>): PC { if r.Ok? then Acquired(r.value) else Idle }

  /** The state in which a minted ID is about to be marked: counter raised, block there. */
  function Minted(m: State): State {
    var m1 := m.(nextId := (m.nextId + 1) % U32_LIMIT);
    if BlockOf(m.nextId) > m.maxBlock then Expand(m1) else m1
  }

  /** From the fetch-and-add to `mark_id`. */
  lemma MintEntryAlone(m: State, t: Tid)
    requires BlockOf(m.nextId) <= m.maxBlock + 1
    ensures Leads(Config(m, None, FetchAdd), t, Config(Minted(m), None, MarkCheckId(m.nextId, Minting)))
  {
    hide Leads, BlockKey, BlockOf;
    var id := m.nextId;
    var m1 := m.(nextId := (id + 1) % U32_LIMIT);
    var d := Config(Minted(m), None, MarkCheckId(id, Minting));
    var c0, c1 := Config(m, None, FetchAdd), Config(m1, None, MintCheckBlock(id));
    assert One(c0, t) == c1;
    Stay(d, t);
    if BlockOf(id) > m.maxBlock {
      var c2 := Config(m1, None, ExpandLock(id));
      assert One(c1, t) == c2;
      ExpandAlone(m1, t, id, d);
    } else {
      assert One(c1, t) == d;
    }
    Then(c1, t, d);
    Then(c0, t, d);
  }

  /** One round of the minting loop, with the mark. */
  lemma MintRoundAlone(m: State, t: Tid)
    requires Valid(m) && m.queue == []
    ensures var (m', r) := MintOnce(m);
            Leads(Config(m, None, FetchAdd), t,
                  Config(m', None, if r.Err? then Idle else AfterMark(m.nextId, Minting, r.value)))
  {
    hide Leads, Used, BlockKey, Mark, FreeIds;
    var id := m.nextId;
    var m1 := m.(nextId := (id + 1) % U32_LIMIT);
    var (m', r) := MintOnce(m);
    var d := Config(m', None, if r.Err? then Idle else AfterMark(id, Minting, r.value));
    var c0 := Config(m, None, FetchAdd);
    if BlockOf(id) > m.maxBlock + 1 {
      var c1, c2 := Config(m1, None, MintCheckBlock(id)), Config(m1, None, ExpandLock(id));
      assert One(c0, t) == c1 && One(c1, t) == c2 && One(c2, t) == d;
      Stay(d, t);
      Then(c2, t, d);
      Then(c1, t, d);
      Then(c0, t, d);
    } else {
      if BlockOf(id) == m.maxBlock + 1 { ExpandOutcome(m1); }
      MintEntryAlone(m, t);
      MarkAlone(Minted(m), t, id, Minting);
      Chain(c0, t, Config(Minted(m), None, MarkCheckId(id, Minting)), d);
    }
  }

  /** Lock, write the zero block, raise `max_block`, unlock. */
  lemma ExpandAlone(m: State, t: Tid, id: nat, d: Config)
    requires BlockOf(id) == m.maxBlock + 1 && Leads(Config(Expand(m), None, MarkCheckId(id, Minting)), t, d)
    ensures Leads(Config(m, None, ExpandLock(id)), t, d)
  {
    hide Leads, BlockKey;
    var c2, c3 := Config(m, None, ExpandLock(id)), Config(m, Some(t), ExpandWrite(id));
    var c4 := Config(m.(blocks := m.blocks[BlockKey(BlockOf(id)) := ZeroBlock()]), Some(t), ExpandBump(id));
    assert One(c2, t) == c3 && One(c3, t) == c4;
    assert One(c4, t) == Config(Expand(m), None, MarkCheckId(id, Minting));
    Then(c4, t, d);
    Then(c3, t, d);
    Then(c2, t, d);
  }

  lemma {:induction false} MintAlone(m: State, t: Tid)
    requires Valid(m) && m.queue == []
    ensures Leads(Config(m, None, FetchAdd), t, Config(Mint(m).0, None, AllocatedPc(Mint(m).1)))
    decreases U32_LIMIT - m.nextId
  {
    hide Leads, MintOnce, Valid;
    assert m.nextId < U32_LIMIT by { CounterBound(m); }
    MintOnceOutcome(m);
    MintRoundAlone(m, t);
    var (m1, r) := MintOnce(m);
    if r == Ok(false) {
      MintAlone(m1, t);
      Chain(Config(m, None, FetchAdd), t, Config(m1, None, FetchAdd), Config(Mint(m).0, None, AllocatedPc(Mint(m).1)));
    }
  }

  lemma TakeAlone(m: State, t: Tid, retry: bool)
    requires Valid(m) && m.queue != []
    ensures Leads(Config(m, None, Pop(retry)), t, Config(TakeQueued(m).0, None, AllocatedPc(TakeQueued(m).1)))
  {
    hide Leads, Used, BlockOf, BlockKey;
    TakeQueuedOutcome(m);
    var id, m1 := m.queue[0], m.(queue := m.queue[1..]);
    assert Valid(m1) by { PoppedValid(m); }
    assert m.queue[0] in m.queue;
    MarkAlone(m1, t, id, Reuse);
    var d := Config(TakeQueued(m).0, None, AllocatedPc(TakeQueued(m).1));
    assert One(Config(m, None, Pop(retry)), t) == Config(m1, None, MarkCheckId(id, Reuse));
    Then(Config(m, None, Pop(retry)), t, d);
  }

  lemma PoppedValid(m: State)
    requires Valid(m) && m.queue != []
    ensures Valid(m.(queue := m.queue[1..]))
  {
    assert forall q :: q in m.queue[1..] ==> q in m.queue;
  }

  /** One thread alone in `next_id` realizes the sequential allocation, step by atomic step. */
  lemma NextIdAlone(m: State, t: Tid)
    requires Valid(m)
    ensures Leads(Config(m, None, CheckFlag), t, Config(NextId(m).0, None, AllocatedPc(NextId(m).1)))
  {
    hide Leads, Valid, Mint, TakeQueued;
    var d := Config(NextId(m).0, None, AllocatedPc(NextId(m).1));
    var c0 := Config(m, None, CheckFlag);
    if m.hasFree {
      RefillOutcome(m);
      var c1 := Config(m, None, Pop(true));
      assert One(c0, t) == c1;
      var (m1, found) := Refill(m);
      if m.queue != [] {
        TakeAlone(m, t, true);
      } else {
        var c2 := Config(m, None, RefillLock);
        assert One(c1, t) == c2;
        RefillAlone(m, t);
        if found {
          TakeAlone(m1, t, false);
        } else {
          MintAlone(m1, t);
        }
        Chain(c2, t, Config(m1, None, if found then Pop(false) else FetchAdd), d);
        Then(c1, t, d);
      }
    } else {
      assert One(c0, t) == Config(m, None, FetchAdd);
      assert m.queue == [] by { NoFlagNoQueue(m); }
      MintAlone(m, t);
    }
    Then(c0, t, d);
  }

  lemma NoFlagNoQueue(m: State)
    requires Valid(m) && !m.hasFree
    ensures m.queue == []
  {
  }

  /** ... and one thread alone in `mark_free` the sequential release. */
  lemma MarkFreeAlone(m: State, t: Tid, id: nat, owned: bool)
    requires Valid(m)
    ensures Leads(Config(m, None, MarkCheckId(id, Freeing(owned))), t, Config(Mark(m, id, false).0, None, Idle))
  {
    hide Leads, Mark;
    MarkAlone(m, t, id, Freeing(owned));
  }
}
