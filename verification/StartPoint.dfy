/** When an attempt to set the start point succeeds, when a later one will, and when none ever does. */
module StartPoint {
  import opened Collections
  import opened FsmLayout
  import opened FsmSpec
  import FsmRuns
  import opened GarnetProvider

  // ---------------------------------------------------------------- one attempt

  lemma {:induction false} MintsAtLeast(f: State)
    requires Valid(f) && f.queue == []
    ensures Mint(f).1.Ok? ==> f.nextId <= Mint(f).1.value
    decreases U32_LIMIT - f.nextId
  {
    MintOnceOutcome(f);
    if MintOnce(f).1 == Ok(false) {
      MintsAtLeast(MintOnce(f).0);
    }
  }

  /** Minting yields ID 0 exactly on a map that has minted nothing and has it free. */
  lemma MintsZeroIff(f: State)
    requires Valid(f) && f.queue == []
    ensures Mint(f).1 == Ok(0) <==> f.nextId == 0 && !Used(f.blocks, 0)
  {
    MintOnceOutcome(f);
    MintOutcome(f);
    MintsAtLeast(f);
  }

  /** ID 0 is what `next_id` returns exactly if it is the next to be reused and was minted, or nothing is to
      be reused and it is the first to be minted. */
  lemma NextIsZeroIff(f: State)
    requires Valid(f)
    ensures NextId(f).1 == Ok(0) <==>
              || (Candidate(f) == Some(0) && 0 < f.nextId)
              || (Candidate(f) == None && f.nextId == 0 && !Used(f.blocks, 0))
  {
    hide Used, Mint, TakeQueued;
    if !f.hasFree {
      MintsZeroIff(f);
    } else {
      RefillOutcome(f);
      var (g, found) := Refill(f);
      if found {
        TakeQueuedOutcome(g);
      } else {
        MintsZeroIff(g);
      }
    }
  }

  /** The exact condition for one attempt on a working store. */
  lemma StartSucceedsIff(s: Terms, point: Bytes)
    requires Valid(s.fsm)
    ensures SetStart(s, point).1.Done? <==>
              if 0 in s.vectors then s.startList
              else || (Candidate(s.fsm) == Some(0) && 0 < s.fsm.nextId)
                   || (Candidate(s.fsm) == None && s.fsm.nextId == 0 && !Used(s.fsm.blocks, 0))
  {
    hide NextId, Mark, Valid, Candidate, Used;
    NextIsZeroIff(s.fsm);
    NextIdOutcome(s.fsm);
  }

  lemma {:induction false} MintedIsBelow(f: State)
    requires Valid(f) && f.queue == []
    ensures Mint(f).1.Ok? ==> Mint(f).1.value < Mint(f).0.nextId
    decreases U32_LIMIT - f.nextId
  {
    MintOnceOutcome(f);
    if MintOnce(f).1 == Ok(false) {
      MintedIsBelow(MintOnce(f).0);
    }
  }

  lemma ReturnedIsBelow(f: State)
    requires Valid(f)
    ensures NextId(f).1.Ok? ==> NextId(f).1.value < NextId(f).0.nextId
  {
    hide Used, Mint, TakeQueued;
    if !f.hasFree {
      MintedIsBelow(f);
    } else {
      RefillOutcome(f);
      var (g, found) := Refill(f);
      if found {
        TakeQueuedOutcome(g);
      } else {
        MintedIsBelow(g);
      }
    }
  }

  /** With which error an attempt fails: a missing list is a failed read, an allocation that fails reports its own
      error, and any other internal ID than 0 is reported as such. */
  lemma StartFailsWith(s: Terms, point: Bytes)
    requires Valid(s.fsm) && SetStart(s, point).1.Failed?
    ensures SetStart(s, point).1.error ==
            if 0 in s.vectors then GarnetReadFailed
            else match NextId(s.fsm).1
                 case Err(e) => Fsm(e)
                 case Ok(_) => GarnetProvider.StartPoint
  {
    NextIdOutcome(s.fsm);
    ReturnedIsBelow(s.fsm);
    var (f, r) := NextId(s.fsm);
    hide NextId;
    if 0 !in s.vectors && r.Ok? {
      assert Used(f.blocks, r.value) && BlockOf(r.value) <= f.maxBlock;
      MarkExact(f, r.value, false);
    }
    hide Mark, Valid, Used;
  }

  // ---------------------------------------------------------------- repeated attempts

  /** What an attempt without a stored vector leaves of the free space map: another ID than 0 is given back. */
  function Attempted(f: State): State
    requires Valid(f)
  {
    NextIdOutcome(f);
    var (g, r) := NextId(f);
    if r.Ok? && r.value != 0 then Mark(g, r.value, false).0 else g
  }

  /** The counter is past every used ID and not at its end, or something minted is queued. */
  ghost predicate Regular(f: State) {
    Valid(f) && Tight(f) && (f.nextId + 1 < U32_LIMIT || exists q :: q in f.queue && q < f.nextId)
  }

  /** The queue that the next allocation pops from. */
  function Source(f: State): seq<nat> { Refill(f).0.queue }

  /** A failed attempt that took a queued ID has rotated or shortened the queue. */
  lemma AttemptReuses(f: State)
    requires Regular(f) && Candidate(f).Some? && NextId(f).1 != Ok(0)
    ensures Source(f) != [] && Candidate(f) == Some(Source(f)[0])
    ensures var a, q := Attempted(f), Source(f);
            && Valid(a) && Tight(a) && SameUsed(f.blocks, a.blocks)
            && a.nextId == f.nextId && a.maxBlock == f.maxBlock && a.hasFree
            && a.queue == if q[0] < f.nextId then q[1..] + [q[0]] else q[1..]
  {
    RefillOutcome(f);
    NextIdOutcome(f);
    var g := Refill(f).0;
    TakeQueuedOutcome(g);
    var (h, r) := NextId(f);
    assert (h, r) == TakeQueued(g);
    if r.Ok? {
      MarkOutcome(h, r.value, false);
      assert |h.queue| < FAST_SIZE;
      assert BlockOf(r.value) <= h.maxBlock by { assert Used(h.blocks, r.value); }
    }
    hide Used, Refill, TakeQueued;
  }

  /** A failed attempt that minted has left exactly the minted ID in the queue. */
  lemma AttemptMints(f: State)
    requires Regular(f) && Candidate(f).None? && NextId(f).1 != Ok(0)
    ensures f.nextId > 0 && f.queue == []
    ensures var a := Attempted(f);
            && Valid(a) && Tight(a) && SameUsed(f.blocks, a.blocks)
            && a.nextId == f.nextId + 1 && a.hasFree && a.queue == [f.nextId]
  {
    NextIdOutcome(f);
    if f.hasFree { RefillOutcome(f); }
    assert f.queue == [];
    var (h, r) := NextId(f);
    MarkOutcome(h, r.value, false);
    assert BlockOf(r.value) <= h.maxBlock by { assert Used(h.blocks, r.value); }
    hide Used, NextId, Refill;
  }

  /** ID 0 is free, and it is in the queue, or the queue will run empty and the refill or the counter
      begins with it. */
  ghost predicate Hopeful(f: State) {
    && !Used(f.blocks, 0)
    && if f.nextId == 0 then !f.hasFree || f.maxBlock == 0
       else 0 in f.queue || (f.hasFree && f.maxBlock > 0 && forall q :: q in f.queue ==> q >= f.nextId)
  }

  /** How many attempts fail before. */
  function Delay(queue: seq<nat>, minted: bool): nat {
    if queue == [] || (minted && queue[0] == 0) then 0 else 1 + Delay(queue[1..], minted)
  }

  lemma {:induction false} DelayKept(a: seq<nat>, b: seq<nat>, minted: bool)
    requires minted && 0 in a
    ensures Delay(a + b, minted) == Delay(a, minted)
  {
    if a[0] != 0 {
      DelayKept(a[1..], b, minted);
      assert (a + b)[1..] == a[1..] + b;
    }
  }

  /** With an empty queue, a refill starts with ID 0 if that is free. */
  lemma RefillStartsWithZero(f: State)
    requires Valid(f) && f.hasFree && f.queue == [] && !Used(f.blocks, 0)
    ensures f.maxBlock > 0 ==> Candidate(f) == Some(0) && Source(f) != [] && Source(f)[0] == 0
    ensures f.maxBlock == 0 ==> Candidate(f) == None
  {
    var hi := f.maxBlock * BLOCK_SIZE_IDS;
    var free := FreeIds(f.blocks, 0, hi);
    FreeIdsMembers(f.blocks, 0, hi);
    hide Used, FreeIds;
    assert free != [] ==> free[0] in free;
    if f.maxBlock > 0 {
      assert 0 in free;
      var i :| 0 <= i < |free| && free[i] == 0;
    }
  }

  lemma CandidateIsHead(f: State)
    requires Valid(f) && f.queue != []
    ensures Candidate(f) == Some(f.queue[0]) && Source(f) == f.queue
  {
    hide Used;
  }

  /** An attempt succeeds only on a hopeful map ... */
  lemma SuccessIsHopeful(f: State)
    requires Valid(f) && NextId(f).1 == Ok(0)
    ensures Hopeful(f)
  {
    NextIsZeroIff(f);
    NextIdOutcome(f);
    hide Used, NextId, Candidate, Valid;
    if f.queue != [] {
      CandidateIsHead(f);
    } else if f.hasFree {
      RefillStartsWithZero(f);
    }
  }

  /** ... and a failed one neither brings hope nor takes it, and brings success nearer. */
  lemma AttemptKeepsHope(f: State)
    requires Regular(f) && NextId(f).1 != Ok(0)
    ensures var a := Attempted(f);
            && Regular(a) && (Hopeful(a) <==> Hopeful(f))
            && (Hopeful(f) ==> Delay(a.queue, a.nextId > 0) < Delay(f.queue, f.nextId > 0))
  {
    NextIsZeroIff(f);
    if Candidate(f).None? {
      AttemptMints(f);
      MintedIsHopeless(f);
    } else {
      AttemptReuses(f);
      hide Used, NextId, Candidate, Attempted, Tight;
      if f.queue == [] {
        RefilledIsHopeless(f);
      } else {
        CandidateIsHead(f);
        if f.queue[0] < f.nextId {
          RotationKeepsHope(f, Attempted(f));
        } else {
          ShorteningKeepsHope(f, Attempted(f));
        }
      }
    }
  }

  lemma MintedIsHopeless(f: State)
    requires Regular(f) && Candidate(f).None? && f.nextId > 0 && f.queue == []
    requires var a := Attempted(f);
             && Valid(a) && Tight(a) && SameUsed(f.blocks, a.blocks)
             && a.nextId == f.nextId + 1 && a.hasFree && a.queue == [f.nextId]
    ensures Regular(Attempted(f)) && !Hopeful(f) && !Hopeful(Attempted(f))
  {
    if f.hasFree && !Used(f.blocks, 0) {
      RefillStartsWithZero(f);
    }
    hide Used, Candidate, Attempted, Tight, Valid;
    assert f.nextId in [f.nextId];
  }

  lemma RefilledIsHopeless(f: State)
    requires Regular(f) && Candidate(f).Some? && f.queue == [] && NextId(f).1 != Ok(0)
    requires Source(f) != [] && Candidate(f) == Some(Source(f)[0])
    requires var a, q := Attempted(f), Source(f);
             && Valid(a) && Tight(a) && SameUsed(f.blocks, a.blocks)
             && a.nextId == f.nextId && a.maxBlock == f.maxBlock && a.hasFree
             && a.queue == if q[0] < f.nextId then q[1..] + [q[0]] else q[1..]
    ensures Regular(Attempted(f)) && !Hopeful(f) && !Hopeful(Attempted(f))
  {
    NextIsZeroIff(f);
    assert f.hasFree;
    if !Used(f.blocks, 0) {
      RefillStartsWithZero(f);
    }
    hide Used, NextId, Candidate, Attempted, Tight, Valid;
  }

  lemma RotationKeepsHope(f: State, a: State)
    requires Regular(f) && Valid(a) && Tight(a) && SameUsed(f.blocks, a.blocks)
    requires f.queue != [] && 0 < f.queue[0] < f.nextId
    requires a.nextId == f.nextId && a.maxBlock == f.maxBlock && a.hasFree && a.queue == f.queue[1..] + [f.queue[0]]
    ensures Regular(a) && (Hopeful(a) <==> Hopeful(f))
    ensures Hopeful(f) ==> Delay(a.queue, a.nextId > 0) < Delay(f.queue, f.nextId > 0)
  {
    hide Used, Valid, Tight;
    var h := f.queue[0];
    assert f.queue == [h] + f.queue[1..];
    assert h in a.queue && h in f.queue;
    assert 0 in a.queue <==> 0 in f.queue[1..];
    if 0 in f.queue {
      DelayKept(f.queue[1..], [h], true);
    }
  }

  lemma ShorteningKeepsHope(f: State, a: State)
    requires Regular(f) && Valid(a) && Tight(a) && SameUsed(f.blocks, a.blocks)
    requires f.queue != [] && f.queue[0] >= f.nextId
    requires a.nextId == f.nextId && a.maxBlock == f.maxBlock && a.hasFree && a.queue == f.queue[1..]
    ensures Regular(a) && (Hopeful(a) <==> Hopeful(f))
    ensures Hopeful(f) ==> Delay(a.queue, a.nextId > 0) < Delay(f.queue, f.nextId > 0)
  {
    assert f.hasFree;
    hide Used, Valid, Tight;
    var h := f.queue[0];
    assert f.queue == [h] + f.queue[1..];
    assert forall q :: q in f.queue <==> q == h || q in f.queue[1..];
  }

  // ---------------------------------------------------------------- over any number of attempts

  /** The state after `k` attempts. */
  ghost function Attempts(s: Terms, point: Bytes, k: nat): (s': Terms)
    requires Valid(s.fsm)
    ensures Valid(s'.fsm)
  {
    if k == 0 then s
    else
      var before := Attempts(s, point, k - 1);
      SetStartValid(before, point);
      SetStart(before, point).0
  }

  lemma SetStartValid(s: Terms, point: Bytes)
    requires Valid(s.fsm)
    ensures Valid(SetStart(s, point).0.fsm)
    ensures 0 !in s.vectors && SetStart(s, point).1.Failed? ==>
              SetStart(s, point).0 == s.(fsm := Attempted(s.fsm)) && NextId(s.fsm).1 != Ok(0)
    ensures 0 !in s.vectors && SetStart(s, point).1.Done? ==> NextId(s.fsm).1 == Ok(0)
  {
    hide NextId, Valid, Mark;
    NextIdOutcome(s.fsm);
    var (f, r) := NextId(s.fsm);
    if r.Ok? { MarkOutcome(f, r.value, false); }
  }

  ghost predicate CanStart(s: Terms) { if 0 in s.vectors then s.startList else Hopeful(s.fsm) }

  lemma AttemptKeepsStart(s: Terms, point: Bytes)
    requires Regular(s.fsm) && SetStart(s, point).1.Failed?
    ensures var s' := SetStart(s, point).0;
            && Regular(s'.fsm) && (CanStart(s') <==> CanStart(s))
            && (CanStart(s) ==> Delay(s'.fsm.queue, s'.fsm.nextId > 0) < Delay(s.fsm.queue, s.fsm.nextId > 0))
  {
    SetStartValid(s, point);
    if 0 !in s.vectors {
      hide SetStart, NextId, Hopeful, Attempted, Valid, Tight;
      AttemptKeepsHope(s.fsm);
    }
  }

  lemma {:induction false} StartsEventually(s: Terms, point: Bytes) returns (k: nat)
    requires Regular(s.fsm) && CanStart(s)
    ensures SetStart(Attempts(s, point, k), point).1.Done?
    decreases Delay(s.fsm.queue, s.fsm.nextId > 0)
  {
    hide SetStart, CanStart, Regular, Valid;
    RegularIsValid(s.fsm);
    if SetStart(s, point).1.Done? {
      k := 0;
    } else {
      AttemptKeepsStart(s, point);
      var s1 := SetStart(s, point).0;
      var j := StartsEventually(s1, point);
      RegularIsValid(s1.fsm);
      AttemptsShift(s, point, j);
      k := j + 1;
    }
  }

  lemma RegularIsValid(f: State)
    requires Regular(f)
    ensures Valid(f)
  {
  }

  lemma {:induction false} AttemptsShift(s: Terms, point: Bytes, k: nat)
    requires Valid(s.fsm) && Valid(SetStart(s, point).0.fsm)
    ensures Attempts(s, point, k + 1) == Attempts(SetStart(s, point).0, point, k)
  {
    hide SetStart, Valid;
    if k == 0 {
      assert Attempts(s, point, 0) == s;
    } else {
      AttemptsShift(s, point, k - 1);
    }
  }

  lemma {:induction false} NeverStarts(s: Terms, point: Bytes, k: nat)
    requires Regular(s.fsm) && Valid(s.fsm) && !CanStart(s)
    ensures var s' := Attempts(s, point, k);
            Regular(s'.fsm) && !CanStart(s') && SetStart(s', point).1.Failed?
  {
    hide SetStart, CanStart, Regular, Valid;
    if k > 0 {
      NeverStarts(s, point, k - 1);
      AttemptKeepsStart(Attempts(s, point, k - 1), point);
    }
    HopelessFails(Attempts(s, point, k), point);
  }

  lemma HopelessFails(s: Terms, point: Bytes)
    requires Valid(s.fsm) && !CanStart(s)
    ensures SetStart(s, point).1.Failed?
  {
    SetStartValid(s, point);
    if 0 !in s.vectors && NextId(s.fsm).1 == Ok(0) {
      SuccessIsHopeful(s.fsm);
    }
  }

  /** The exact condition for any number of attempts on a working store, one after the other: one of them
      succeeds if and only if vector and list are stored, or there is no vector and ID 0 is within reach. */
  lemma StartEventuallyIff(s: Terms, point: Bytes)
    requires Regular(s.fsm)
    ensures Valid(s.fsm)
    ensures (exists k: nat :: SetStart(Attempts(s, point, k), point).1.Done?) <==> CanStart(s)
  {
    RegularIsValid(s.fsm);
    hide SetStart, CanStart, Regular, Valid;
    if CanStart(s) {
      var k := StartsEventually(s, point);
    } else {
      forall k: nat
        ensures SetStart(Attempts(s, point, k), point).1.Failed?
      {
        NeverStarts(s, point, k);
      }
    }
  }

  // ---------------------------------------------------------------- how a start point is lost

  /** The three ways in which the first attempt on a new index can fail half-way: the counter has moved but
      the mark failed, ID 0 is marked but the vector was not written, the vector was written but its list
      was not. After each of them no further attempt succeeds. */
  lemma HalfwayIsLost(point: Bytes, k: nat)
    ensures Valid(Fresh)
    ensures var f := NextId(Fresh).0;
            forall s :: s in {Empty.(fsm := Fresh.(nextId := 1)), Empty.(fsm := f), Empty.(fsm := f, vectors := map[0 := point])} ==>
              Valid(s.fsm) && SetStart(Attempts(s, point, k), point).1.Failed?
  {
    FsmRuns.FreshIsValid();
    NextIdOutcome(Fresh);
    assert Candidate(Fresh).None?;
    var f := NextId(Fresh).0;
    assert Used(f.blocks, 0) && f.nextId == 1;
    hide Used, NextId, SetStart, Attempts;
    var s1, s2, s3 := Empty.(fsm := Fresh.(nextId := 1)), Empty.(fsm := f), Empty.(fsm := f, vectors := map[0 := point]);
    assert Regular(Fresh.(nextId := 1));
    NeverStarts(s1, point, k);
    NeverStarts(s2, point, k);
    NeverStarts(s3, point, k);
  }

  /** Once ID 0 is in use without a vector, no run of inserts, deletes, attempts and reopenings gets it one. */
  lemma {:induction false} StartStaysLost(s: Terms, ops: seq<Op>, point: Bytes)
    requires Linked(s) && Tight(s.fsm) && s.fsm.nextId + |ops| + 1 < U32_LIMIT && 0 !in s.vectors
    ensures 0 !in Run(s, ops).vectors && SetStart(Run(s, ops), point).1.Failed?
    decreases |ops|
  {
    hide Linked, Tight, Inserted, Deleted, SetStart, Used;
    if ops != [] {
      var n := |ops| - 1;
      StartStaysLost(s, ops[..n], point);
      NoVectorForZero(Run(s, ops[..n]), ops[n]);
    }
    SetStartLinked(Run(s, ops), point);
  }

  lemma NoVectorForZero(s: Terms, op: Op)
    requires Linked(s) && Tight(s.fsm) && s.fsm.nextId + 1 < U32_LIMIT && 0 !in s.vectors
    ensures 0 !in Step(s, op).vectors
  {
    match op
    case Insert(e, v) =>
      assert Used(s.fsm.blocks, 0);
      SetElementLinked(s, e, v);
      hide NextId, Valid, Used;
    case SetStartPoint(p) => SetStartLinked(s, p);
    case _ =>
  }

  /** A restart cures the first of the three. */
  lemma RestartCures(s: Terms, point: Bytes)
    requires Valid(s.fsm) && 0 !in s.vectors && forall x: nat :: !Used(s.fsm.blocks, x)
    ensures var s' := s.(fsm := FsmRuns.Reopened(s.fsm.blocks));
            Valid(s'.fsm) && SetStart(s', point).1.Done?
  {
    FsmRuns.ReopenedOutcome(s.fsm);
    var f := FsmRuns.Reopened(s.fsm.blocks);
    assert forall i :: 0 <= i < |f.queue| ==> f.queue[i] in f.queue;
    assert f.hasFree == (f.queue != []);
    ScanCovers(s.fsm.blocks, s.fsm.maxBlock + 1);
    FsmRuns.LoadTight(s.fsm.blocks, FirstMissing(s.fsm.blocks, 0));
    hide FsmRuns.Reopened, Load, Valid, FirstMissing, Used;
    StartSucceedsIff(s.(fsm := f), point);
  }
}
