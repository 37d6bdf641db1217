/** What one call of `next_id` does while other threads interfere: the observations it makes are those that
    the loops of the source prescribe, and the shared queue and counter account for every call. */
module FsmCalls {
  import opened Collections
  import opened FsmLayout
  import opened FsmSpec
  import opened FsmProtocol
  import opened FsmReach

  // ---------------------------------------------------------------- the call as the source has it

  /** What a call learns: the flag, a pop, a mark (an error, or whether it changed the bit), a refill (an
      error, or whether there is something), the number it took, and that there is no room for it. */
  datatype Obs =
    | FlagRead(up: bool)
    | Popped(got: Option<nat>)
    | Marked(id: nat, changed: Option<bool>)
    | Refilled(found: Option<bool>)
    | Took(id: nat)
    | NoRoom

  /** The observations of a whole call that returns `out` - an ID or an error. */
  ghost predicate Call(o: seq<Obs>, out: Option<nat>) {
    o != [] && o[0].FlagRead? && if o[0].up then ReuseLoop(o[1..], out) else MintLoop(o[1..], out)
  }

  /** Retry reusing a freed ID until there are none or one could be marked. */
  ghost predicate ReuseLoop(o: seq<Obs>, out: Option<nat>)
    decreases |o|, 0
  {
    && o != [] && o[0].Popped?
    && match o[0].got
       case Some(id) => AfterMarking(o[1..], id, true, out)
       case None => AfterRefill(o[1..], out)
  }

  ghost predicate AfterRefill(o: seq<Obs>, out: Option<nat>)
    decreases |o|, 0
  {
    && o != [] && o[0].Refilled?
    && match o[0].found
       case None => o[1..] == [] && out == None
       case Some(false) => MintLoop(o[1..], out)
       case Some(true) => SecondPop(o[1..], out)
  }

  ghost predicate SecondPop(o: seq<Obs>, out: Option<nat>)
    decreases |o|, 0
  {
    && o != [] && o[0].Popped?
    && match o[0].got
       case Some(id) => AfterMarking(o[1..], id, true, out)
       case None => MintLoop(o[1..], out)
  }

  /** An error ends the call, a change ends it with the ID, an unchanged bit sends it back to where the ID
      came from. */
  ghost predicate AfterMarking(o: seq<Obs>, id: nat, reuse: bool, out: Option<nat>)
    decreases |o|, 0
  {
    && o != [] && o[0].Marked? && o[0].id == id
    && match o[0].changed
       case None => o[1..] == [] && out == None
       case Some(true) => o[1..] == [] && out == Some(id)
       case Some(false) => if reuse then ReuseLoop(o[1..], out) else MintLoop(o[1..], out)
  }

  /** Retry minting until a new ID could be marked. */
  ghost predicate MintLoop(o: seq<Obs>, out: Option<nat>)
    decreases |o|, 0
  {
    o != [] && o[0].Took? && AfterTaking(o[1..], o[0].id, out)
  }

  ghost predicate AfterTaking(o: seq<Obs>, id: nat, out: Option<nat>)
    decreases |o|, 1
  {
    if o != [] && o[0].NoRoom? then o[1..] == [] && out == None else AfterMarking(o, id, false, out)
  }

  // ---------------------------------------------------------------- the call as a thread makes it

  /** What one atomic step observes, if anything. */
  function ObsOf(m: State, pc: PC, ok: bool): seq<Obs> {
    match pc
    case CheckFlag => [FlagRead(m.hasFree)]
    case Pop(_) => [Popped(if m.queue == [] then None else Some(m.queue[0]))]
    case MarkCheckId(id, _) => if id >= m.nextId then [Marked(id, None)] else []
    case MarkCheckBlock(id, _) => if BlockOf(id) > m.maxBlock then [Marked(id, None)] else []
    case MarkRmw(id, why) => [Marked(id, if ok then Some(Used(m.blocks, id) == why.Freeing?) else None)]
    case RefillPeek => if m.queue != [] then [Refilled(Some(true))] else []
    case RefillRead(b, _) => if b < m.maxBlock && !ok then [Refilled(None)] else []
    case RefillEnd(found) => [Refilled(Some(found))]
    case FetchAdd => [Took(m.nextId)]
    case ExpandLock(id) => if BlockOf(id) > m.maxBlock + 1 then [NoRoom] else []
    case ExpandWrite(_) => if ok then [] else [NoRoom]
    case _ => []
  }

  /** What a thread at `pc` has still to observe. */
  ghost predicate Rest(pc: PC, o: seq<Obs>, out: Option<nat>) {
    match pc
    case CheckFlag => Call(o, out)
    case Pop(retry) => if retry then ReuseLoop(o, out) else SecondPop(o, out)
    case MarkCheckId(id, why) => AfterMarking(o, id, why.Reuse?, out)
    case MarkCheckBlock(id, why) => AfterMarking(o, id, why.Reuse?, out)
    case MarkRmw(id, why) => AfterMarking(o, id, why.Reuse?, out)
    case FetchAdd => MintLoop(o, out)
    case MintCheckBlock(id) => AfterTaking(o, id, out)
    case ExpandLock(id) => AfterTaking(o, id, out)
    case ExpandWrite(id) => AfterTaking(o, id, out)
    case ExpandBump(id) => AfterTaking(o, id, out)
    case Acquired(id) => o == [] && out == Some(id)
    case RefillLock => AfterRefill(o, out)
    case RefillPeek => AfterRefill(o, out)
    case RefillRead(_, _) => AfterRefill(o, out)
    case RefillFlag(_, _) => AfterRefill(o, out)
    case RefillPush(_, _) => AfterRefill(o, out)
    case RefillEnd(_) => AfterRefill(o, out)
    case _ => false
  }

  /** Inside `next_id`. */
  predicate Allocating(pc: PC) {
    && pc != Idle && !pc.FreePush? && !pc.FreeFlag?
    && ((pc.MarkCheckId? || pc.MarkCheckBlock? || pc.MarkRmw?) ==> !pc.why.Freeing?)
  }

  lemma Cons(x: Obs, rest: seq<Obs>)
    ensures ([x] + rest)[1..] == rest && [x][1..] == [] && [] + rest == rest
  {
  }

  /** One step of a thread takes one observation, or none, off what it has still to observe. */
  ghost predicate Observes(m: State, w: Option<Tid>, t: Tid, pc: PC, ok: bool, rest: seq<Obs>, out: Option<nat>) {
    var e := StepFrom(m, w, t, pc, ok);
    && (e.pc != Idle ==> Allocating(e.pc) && (Rest(e.pc, rest, out) ==> Rest(pc, ObsOf(m, pc, ok) + rest, out)))
    && (e.pc == Idle ==> Rest(pc, ObsOf(m, pc, ok), e.gives))
  }

  lemma QueueObserves(m: State, w: Option<Tid>, t: Tid, pc: PC, ok: bool, rest: seq<Obs>, out: Option<nat>)
    requires pc.CheckFlag? || pc.Pop? || pc.Acquired?
    ensures Observes(m, w, t, pc, ok, rest, out)
  {
    hide MintLoop, AfterMarking, AfterRefill;
    var o := ObsOf(m, pc, ok);
    if !pc.Acquired? { Cons(o[0], rest); }
  }

  lemma MarkObserves(m: State, w: Option<Tid>, t: Tid, pc: PC, ok: bool, rest: seq<Obs>, out: Option<nat>)
    requires (pc.MarkCheckId? || pc.MarkCheckBlock? || pc.MarkRmw?) && !pc.why.Freeing?
    ensures Observes(m, w, t, pc, ok, rest, out)
  {
    hide Used, BlockOf, MarkBlocks, MintLoop, ReuseLoop, AfterRefill;
    Cons(Marked(pc.id, None), rest);
    if pc.MarkRmw? { Cons(ObsOf(m, pc, ok)[0], rest); }
  }

  lemma RefillObserves(m: State, w: Option<Tid>, t: Tid, pc: PC, ok: bool, rest: seq<Obs>, out: Option<nat>)
    requires pc.RefillLock? || pc.RefillPeek? || pc.RefillRead? || pc.RefillFlag? || pc.RefillPush? || pc.RefillEnd?
    ensures Observes(m, w, t, pc, ok, rest, out)
  {
    hide FreeIds, MintLoop, ReuseLoop, AfterMarking, SecondPop;
    Cons(Refilled(None), rest);
    Cons(Refilled(Some(true)), rest);
    if pc.RefillEnd? { Cons(Refilled(Some(pc.found)), rest); }
  }

  lemma MintObserves(m: State, w: Option<Tid>, t: Tid, pc: PC, ok: bool, rest: seq<Obs>, out: Option<nat>)
    requires pc.FetchAdd? || pc.MintCheckBlock? || pc.ExpandLock? || pc.ExpandWrite? || pc.ExpandBump?
    ensures Observes(m, w, t, pc, ok, rest, out)
  {
    hide BlockOf, BlockKey, ZeroBlock, Call, ReuseLoop, SecondPop, AfterRefill, MintLoop, AfterTaking, AfterMarking;
    assert [] + rest == rest;
    if pc.FetchAdd? {
      TakingBegins(m.nextId, rest, out);
    } else {
      NotNoRoom(rest, pc.id, out);
      NoRoomEnds(pc.id);
    }
  }

  lemma TakingBegins(id: nat, rest: seq<Obs>, out: Option<nat>)
    ensures AfterTaking(rest, id, out) ==> MintLoop([Took(id)] + rest, out)
  {
    Cons(Took(id), rest);
    hide AfterTaking;
  }

  lemma NoRoomEnds(id: nat)
    ensures AfterTaking([NoRoom], id, None)
  {
  }

  /** A marking that follows a taken number is what follows it when there is room. */
  lemma NotNoRoom(o: seq<Obs>, id: nat, out: Option<nat>)
    ensures AfterMarking(o, id, false, out) ==> AfterTaking(o, id, out)
  {
  }

  lemma StepObserves(m: State, w: Option<Tid>, t: Tid, pc: PC, ok: bool, rest: seq<Obs>, out: Option<nat>)
    requires Allocating(pc)
    ensures Observes(m, w, t, pc, ok, rest, out)
  {
    hide Observes;
    match pc
    case CheckFlag => QueueObserves(m, w, t, pc, ok, rest, out);
    case Pop(_) => QueueObserves(m, w, t, pc, ok, rest, out);
    case Acquired(_) => QueueObserves(m, w, t, pc, ok, rest, out);
    case MarkCheckId(_, _) => MarkObserves(m, w, t, pc, ok, rest, out);
    case MarkCheckBlock(_, _) => MarkObserves(m, w, t, pc, ok, rest, out);
    case MarkRmw(_, _) => MarkObserves(m, w, t, pc, ok, rest, out);
    case FetchAdd => MintObserves(m, w, t, pc, ok, rest, out);
    case MintCheckBlock(_) => MintObserves(m, w, t, pc, ok, rest, out);
    case ExpandLock(_) => MintObserves(m, w, t, pc, ok, rest, out);
    case ExpandWrite(_) => MintObserves(m, w, t, pc, ok, rest, out);
    case ExpandBump(_) => MintObserves(m, w, t, pc, ok, rest, out);
    case _ => RefillObserves(m, w, t, pc, ok, rest, out);
  }

  /** What thread `t` observes in the actions `i .. k` of a path. */
  ghost function Observed(states: seq<Sys>, acts: seq<Action>, t: Tid, i: nat, k: nat): seq<Obs>
    requires |states| == |acts| + 1 && i <= k <= |acts|
    decreases k - i
  {
    if i == k then []
    else (if acts[i].Go? && acts[i].t == t then ObsOf(states[i].mem, Pc(states[i], t), acts[i].ok) else [])
         + Observed(states, acts, t, i + 1, k)
  }

  /** From a thread inside `next_id` to the end of the call. */
  lemma {:induction false} RestObserved(states: seq<Sys>, acts: seq<Action>, t: Tid, i: nat, k: nat)
    requires Path(states, acts) && i < k <= |acts| && Allocating(Pc(states[i], t))
    requires forall j :: i <= j < k ==> Pc(states[j], t) != Idle && !acts[j].Crash?
    requires Pc(states[k], t) == Idle
    ensures Rest(Pc(states[i], t), Observed(states, acts, t, i, k), Outcome(states, acts, t, k))
    decreases k - i
  {
    hide Rest, Used, ObsOf, Allocating;
    var pc, a, out := Pc(states[i], t), acts[i], Outcome(states, acts, t, k);
    var rest := Observed(states, acts, t, i + 1, k);
    assert Enabled(states[i], a) && states[i + 1] == Apply(states[i], a);
    if a.Go? && a.t == t {
      StepObserves(states[i].mem, states[i].writer, t, pc, a.ok, rest, out);
      if i + 1 < k {
        hide StepFrom;
        RestObserved(states, acts, t, i + 1, k);
      } else {
        LastStep(states[i], t, a.ok);
        assert ObsOf(states[i].mem, pc, a.ok) + [] == ObsOf(states[i].mem, pc, a.ok);
      }
    } else {
      assert Pc(states[i + 1], t) == pc;
      RestObserved(states, acts, t, i + 1, k);
      assert [] + rest == rest;
    }
  }

  /** What the call returns: the ID of its last step, or an error. */
  ghost function Outcome(states: seq<Sys>, acts: seq<Action>, t: Tid, k: nat): Option<nat>
    requires |states| == |acts| + 1 && 0 < k <= |acts|
  {
    var e := EventOf(states[k - 1], acts[k - 1]);
    if e.Return? && e.t == t then Some(e.id) else None
  }

  lemma LastStep(s: Sys, t: Tid, ok: bool)
    requires Allocating(Pc(s, t)) && StepFrom(s.mem, s.writer, t, Pc(s, t), ok).pc == Idle
    ensures var e := EventOf(s, Go(t, ok));
            StepFrom(s.mem, s.writer, t, Pc(s, t), ok).gives == if e.Return? && e.t == t then Some(e.id) else None
  {
    hide Used, BlockOf, BlockKey, FreeIds, MarkBlocks;
  }

  /** Every completed call of `next_id`, whatever the other threads and the store do meanwhile, observes what
      the loops of the source prescribe, and returns what they return. */
  lemma CallFollowsSource(states: seq<Sys>, acts: seq<Action>, t: Tid, i: nat, k: nat)
    requires Path(states, acts) && i + 1 < k <= |acts| && acts[i] == CallNext(t)
    requires forall j :: i < j < k ==> Pc(states[j], t) != Idle && !acts[j].Crash?
    requires Pc(states[k], t) == Idle
    ensures Call(Observed(states, acts, t, i + 1, k), Outcome(states, acts, t, k))
  {
    hide Call, Enabled, EventOf, Observed, Rest, Apply, Allocating, Pc, Outcome;
    CallBegins(states[i], t);
    AllocationBegins(Observed(states, acts, t, i + 1, k), Outcome(states, acts, t, k));
    RestObserved(states, acts, t, i + 1, k);
  }

  lemma CallBegins(s: Sys, t: Tid)
    requires Enabled(s, CallNext(t))
    ensures Pc(Apply(s, CallNext(t)), t) == CheckFlag
  {
  }

  lemma AllocationBegins(o: seq<Obs>, out: Option<nat>)
    ensures Allocating(CheckFlag) && (Rest(CheckFlag, o, out) ==> Call(o, out))
  {
    hide Call;
  }

  // ---------------------------------------------------------------- stale entries of the queue

  /** Taking an ID off the queue, marking it, or about to return it. */
  predicate Reusing(pc: PC) {
    pc.Pop? || pc.Acquired? || ((pc.MarkCheckId? || pc.MarkCheckBlock? || pc.MarkRmw?) && pc.why.Reuse?)
  }

  lemma ReusingStep(m: State, w: Option<Tid>, t: Tid, pc: PC, ok: bool)
    requires Reusing(pc) && (pc.Pop? ==> m.queue != [])
    ensures var e := StepFrom(m, w, t, pc, ok); e.pc == Idle || Reusing(e.pc)
    ensures pc.MarkRmw? && ok && Used(m.blocks, pc.id) ==> StepFrom(m, w, t, pc, ok).pc.Pop?
  {
    hide Used, BlockOf, BlockKey, MarkBlocks;
  }

  /** A thread that finds a queued ID already marked pops again, and as long as the queue is not empty it
      goes on reusing and does not mint. */
  lemma {:induction false} StaleIdIsRetried(states: seq<Sys>, acts: seq<Action>, t: Tid, id: nat, i: nat, j: nat)
    requires Path(states, acts) && i < j <= |acts| && acts[i] == Go(t, true)
    requires Pc(states[i], t) == MarkRmw(id, Reuse) && Used(states[i].mem.blocks, id)
    requires forall k :: i <= k < j ==> !acts[k].Crash?
    requires forall k :: i < k <= j ==> states[k].mem.queue != [] && Pc(states[k], t) != Idle
    ensures Pc(states[i + 1], t).Pop? && Reusing(Pc(states[j], t))
    decreases j - i
  {
    hide Used, Reusing, Enabled, Apply, Pc;
    if j == i + 1 {
      ReusingAction(states[i], acts[i], t);
    } else {
      StaleIdIsRetried(states, acts, t, id, i, j - 1);
      assert states[j - 1].mem.queue != [];
      ReusingAction(states[j - 1], acts[j - 1], t);
    }
  }

  lemma ReusingAction(s: Sys, a: Action, t: Tid)
    requires Enabled(s, a) && !a.Crash? && (Reusing(Pc(s, t)) || exists id :: Pc(s, t) == MarkRmw(id, Reuse))
    requires Pc(s, t).Pop? ==> s.mem.queue != []
    ensures Pc(Apply(s, a), t) == Idle || Reusing(Pc(Apply(s, a), t))
    ensures a == Go(t, true) && Pc(s, t).MarkRmw? && Used(s.mem.blocks, Pc(s, t).id) ==> Pc(Apply(s, a), t).Pop?
  {
    hide Used;
    if a.Go? && a.t == t {
      ReusingStep(s.mem, s.writer, t, Pc(s, t), a.ok);
      hide StepFrom;
    }
  }

  // ---------------------------------------------------------------- the queue and the counter

  /** What a step adds to the queue ... */
  function Pushed(m: State, pc: PC): seq<nat> {
    if |m.queue| >= FAST_SIZE then []
    else if pc.FreePush? then [pc.id]
    else if pc.RefillPush? && pc.pending != [] then [pc.pending[0]]
    else []
  }

  /** ... and takes from it. */
  function Taken(m: State, pc: PC): seq<nat> { if pc.Pop? && m.queue != [] then [m.queue[0]] else [] }

  lemma QueueStep(m: State, w: Option<Tid>, t: Tid, pc: PC, ok: bool)
    ensures m.queue + Pushed(m, pc) == Taken(m, pc) + StepFrom(m, w, t, pc, ok).mem.queue
  {
    hide Used, BlockOf, BlockKey, FreeIds, MarkBlocks;
  }

  ghost function AllPushed(states: seq<Sys>, acts: seq<Action>, n: nat): seq<nat>
    requires |states| == |acts| + 1 && n <= |acts|
  {
    if n == 0 then []
    else AllPushed(states, acts, n - 1)
         + (if acts[n - 1].Go? then Pushed(states[n - 1].mem, Pc(states[n - 1], acts[n - 1].t)) else [])
  }

  ghost function AllTaken(states: seq<Sys>, acts: seq<Action>, n: nat): seq<nat>
    requires |states| == |acts| + 1 && n <= |acts|
  {
    if n == 0 then []
    else AllTaken(states, acts, n - 1)
         + (if acts[n - 1].Go? then Taken(states[n - 1].mem, Pc(states[n - 1], acts[n - 1].t)) else [])
  }

  /** First in, first out, for every interleaving: what was queued and pushed is what was popped, in that order,
      followed by what is queued now. */
  lemma {:induction false} QueueIsFifo(states: seq<Sys>, acts: seq<Action>, n: nat)
    requires Path(states, acts) && n <= |acts| && forall i :: 0 <= i < n ==> !acts[i].Crash?
    ensures states[0].mem.queue + AllPushed(states, acts, n) == AllTaken(states, acts, n) + states[n].mem.queue
  {
    hide Pushed, Taken, Enabled;
    if n > 0 {
      QueueIsFifo(states, acts, n - 1);
      var s, a := states[n - 1], acts[n - 1];
      assert states[n] == Apply(s, a);
      if a.Go? {
        QueueStep(s.mem, s.writer, a.t, Pc(s, a.t), a.ok);
        hide StepFrom;
        Regroup(states[0].mem.queue, AllPushed(states, acts, n - 1), Pushed(s.mem, Pc(s, a.t)),
                AllTaken(states, acts, n - 1), s.mem.queue, Taken(s.mem, Pc(s, a.t)), states[n].mem.queue);
      } else {
        Regroup(states[0].mem.queue, AllPushed(states, acts, n - 1), [],
                AllTaken(states, acts, n - 1), s.mem.queue, [], states[n].mem.queue);
      }
    }
  }

  lemma Regroup(q0: seq<nat>, pushed: seq<nat>, p: seq<nat>, taken: seq<nat>, q: seq<nat>, x: seq<nat>, q': seq<nat>)
    requires q0 + pushed == taken + q && q + p == x + q'
    ensures q0 + (pushed + p) == (taken + x) + q'
  {
    assert q0 + (pushed + p) == (q0 + pushed) + p == taken + (q + p);
    assert taken + (x + q') == (taken + x) + q';
  }

  predicate Takes(s: Sys, a: Action) { a.Go? && Pc(s, a.t) == FetchAdd }

  ghost function CountTakes(states: seq<Sys>, acts: seq<Action>, i: nat, n: nat): nat
    requires |states| == |acts| + 1 && i <= n <= |acts|
  {
    if n == i then 0 else CountTakes(states, acts, i, n - 1) + if Takes(states[n - 1], acts[n - 1]) then 1 else 0
  }

  /** The counter counts the fetch-and-adds, modulo 2^32. */
  lemma {:induction false} CounterCounts(states: seq<Sys>, acts: seq<Action>, i: nat, n: nat)
    requires Path(states, acts) && i <= n <= |acts| && states[i].mem.nextId < U32_LIMIT
    requires forall k :: i <= k < n ==> !acts[k].Crash?
    ensures states[n].mem.nextId == (states[i].mem.nextId + CountTakes(states, acts, i, n)) % U32_LIMIT
    decreases n - i
  {
    hide Enabled, Apply, Takes;
    if n > i {
      CounterCounts(states, acts, i, n - 1);
      CounterMoves(states[n - 1], acts[n - 1]);
      OneMore(states[i].mem.nextId + CountTakes(states, acts, i, n - 1));
    }
  }

  lemma CounterMoves(s: Sys, a: Action)
    requires Enabled(s, a) && !a.Crash?
    ensures Apply(s, a).mem.nextId == if Takes(s, a) then (s.mem.nextId + 1) % U32_LIMIT else s.mem.nextId
  {
    if a.Go? { CounterStep(s.mem, s.writer, a.t, Pc(s, a.t), a.ok); }
    hide StepFrom;
  }

  lemma OneMore(x: nat)
    ensures (x % U32_LIMIT + 1) % U32_LIMIT == (x + 1) % U32_LIMIT
  {
  }

  lemma CounterStep(m: State, w: Option<Tid>, t: Tid, pc: PC, ok: bool)
    ensures StepFrom(m, w, t, pc, ok).mem.nextId == if pc == FetchAdd then (m.nextId + 1) % U32_LIMIT else m.nextId
  {
    hide Used, BlockOf, BlockKey, FreeIds, MarkBlocks;
  }

  /** So two threads never take the same number unless 2^32 others were taken in between. */
  lemma NumbersAreTakenOnce(states: seq<Sys>, acts: seq<Action>, i: nat, j: nat)
    requires Path(states, acts) && i < j < |acts| && states[i].mem.nextId < U32_LIMIT
    requires forall k :: i <= k < j ==> !acts[k].Crash?
    requires Takes(states[i], acts[i]) && Takes(states[j], acts[j])
    requires CountTakes(states, acts, i, j) < U32_LIMIT
    ensures states[i].mem.nextId != states[j].mem.nextId
  {
    hide Takes;
    CounterCounts(states, acts, i, j);
    FirstCounts(states, acts, i, j);
  }

  lemma {:induction false} FirstCounts(states: seq<Sys>, acts: seq<Action>, i: nat, n: nat)
    requires |states| == |acts| + 1 && i < n <= |acts| && Takes(states[i], acts[i])
    ensures CountTakes(states, acts, i, n) >= 1
    decreases n - i
  {
    hide Takes;
    if n > i + 1 { FirstCounts(states, acts, i, n - 1); }
  }

  // ---------------------------------------------------------------- the flag

  /** Something queued is announced by the flag, or by a thread about to raise it; a refill pushes with the flag up. */
  ghost predicate FlagCovers(s: Sys) {
    && (s.mem.queue != [] ==> s.mem.hasFree || RaiserExists(s))
    && (forall t :: t in s.pcs && s.pcs[t].RefillPush? ==> s.mem.hasFree)
  }

  ghost predicate RaiserExists(s: Sys) { exists t :: t in s.pcs && s.pcs[t] == FreeFlag }

  lemma FlagThread(m: State, w: Option<Tid>, t: Tid, pc: PC, ok: bool)
    ensures var e := StepFrom(m, w, t, pc, ok);
            && (e.mem.hasFree <==> pc.FreeFlag? || pc.RefillFlag? || (m.hasFree && pc != RefillEnd(false)))
            && (e.mem.queue != [] && m.queue == [] ==> pc.FreePush? || pc.RefillPush?)
            && (pc.FreePush? ==> e.pc == FreeFlag) && (e.pc.RefillPush? ==> pc.RefillFlag?)
            && (pc.RefillEnd? ==> e.mem.queue == m.queue && e.pc != FreeFlag)
  {
    hide Used, BlockOf, BlockKey, FreeIds, MarkBlocks;
  }

  /** For every interleaving: a step keeps queued IDs announced, unless it is the end of a refill that found
      nothing, which lowers the flag although a release has filled the queue meanwhile. */
  lemma FlagStepIff(s: Sys, a: Action)
    requires Safe(s) && Enabled(s, a) && !a.Crash? && FlagCovers(s)
    ensures FlagCovers(Apply(s, a)) <==>
              !(a.Go? && Pc(s, a.t) == RefillEnd(false) && s.mem.queue != [] && !RaiserExists(s))
  {
    hide Used, BlockOf, BlockKey, MemSafe, PcSafe;
    var s' := Apply(s, a);
    if a.Go? {
      var pc := Pc(s, a.t);
      assert a.t in s.pcs && a.t in s'.pcs;
      FlagThread(s.mem, s.writer, a.t, pc, a.ok);
      hide StepFrom;
      RefillsAlone(s, a.t);
      if RaiserExists(s) {
        var t :| t in s.pcs && s.pcs[t] == FreeFlag;
        assert t == a.t || s'.pcs[t] == FreeFlag;
      }
      if pc.FreePush? { assert s'.pcs[a.t] == FreeFlag; }
      if pc == RefillEnd(false) && !RaiserExists(s) {
        assert forall t :: t in s'.pcs && t != a.t ==> t in s.pcs && s'.pcs[t] == s.pcs[t];
      }
    } else {
      if RaiserExists(s) {
        var t :| t in s.pcs && s.pcs[t] == FreeFlag;
        assert t != a.t && s'.pcs[t] == FreeFlag;
      }
    }
  }

  lemma RefillsAlone(s: Sys, t: Tid)
    requires Safe(s)
    ensures t in s.pcs && s.pcs[t].RefillEnd? ==> forall u :: u in s.pcs && s.pcs[u].RefillPush? ==> u == t
  {
    hide Used, BlockOf, BlockKey, MemSafe, PcSafe;
  }
}
