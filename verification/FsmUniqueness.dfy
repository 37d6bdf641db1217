/** No ID is handed out twice: statements about whole interleaved runs, with store failures and
    restarts, of the threads of `FsmProtocol`. That what they assume is needed is shown in `FsmHazards`. */
module FsmUniqueness {
  import opened Collections
  import opened FsmLayout
  import opened FsmSpec
  import opened FsmProtocol
  import opened FsmReach

  /** A freshly opened map - new or recovered - with no thread inside it and nothing held that is
      not marked used. */
  ghost predicate Start(s: Sys) {
    MemSafe(s.mem) && s.writer == None && s.pcs == map[] && forall x :: x in s.held ==> Used(s.mem.blocks, x)
  }

  ghost predicate IsRun(states: seq<Sys>, acts: seq<Action>) { Path(states, acts) && Start(states[0]) }

  /** Every restart of the run finds every block that holds a used ID. */
  ghost predicate CleanRun(states: seq<Sys>, acts: seq<Action>) {
    IsRun(states, acts) && forall i :: 0 <= i < |acts| ==> Complete(states[i], acts[i])
  }

  ghost function At(states: seq<Sys>, acts: seq<Action>, i: nat): Event
    requires |states| == |acts| + 1 && i < |acts|
  {
    EventOf(states[i], acts[i])
  }

  predicate Flips(e: Event, id: nat) { e.Flip? && e.id == id }

  predicate Clears(e: Event, id: nat) { e.Clear? && e.id == id }

  lemma {:induction false} RunSafe(states: seq<Sys>, acts: seq<Action>, i: nat)
    requires CleanRun(states, acts) && i <= |acts|
    ensures Safe(states[i])
  {
    hide MemSafe, Complete;
    if i > 0 {
      RunSafe(states, acts, i - 1);
      assert Complete(states[i - 1], acts[i - 1]);
      StepSafe(states[i - 1], acts[i - 1]);
    }
  }

  // ---------------------------------------------------------------- any callers

  function Bit(b: bool): nat { if b then 1 else 0 }

  ghost function CountFlips(states: seq<Sys>, acts: seq<Action>, id: nat, n: nat): nat
    requires |states| == |acts| + 1 && n <= |acts|
  {
    if n == 0 then 0 else CountFlips(states, acts, id, n - 1) + Bit(Flips(At(states, acts, n - 1), id))
  }

  ghost function CountClears(states: seq<Sys>, acts: seq<Action>, id: nat, n: nat): nat
    requires |states| == |acts| + 1 && n <= |acts|
  {
    if n == 0 then 0 else CountClears(states, acts, id, n - 1) + Bit(Clears(At(states, acts, n - 1), id))
  }

  /** Conservation, for every ID and every prefix of every run: allocations of the ID minus releases
      of it equal the change of its bit. */
  lemma {:induction false} Conservation(states: seq<Sys>, acts: seq<Action>, id: nat, n: nat)
    requires CleanRun(states, acts) && n <= |acts|
    ensures CountFlips(states, acts, id, n) + Bit(Used(states[0].mem.blocks, id))
            == CountClears(states, acts, id, n) + Bit(Used(states[n].mem.blocks, id))
  {
    hide Used, Apply, EventOf, Safe, Start, Enabled, Complete;
    if n > 0 {
      Conservation(states, acts, id, n - 1);
      RunSafe(states, acts, n - 1);
      assert Complete(states[n - 1], acts[n - 1]);
      EventLaw(states[n - 1], acts[n - 1], id);
    }
  }

  lemma {:induction false} StaysUsed(states: seq<Sys>, acts: seq<Action>, id: nat, i: nat, j: nat)
    requires CleanRun(states, acts) && i <= j <= |acts|
    requires Used(states[i].mem.blocks, id)
    requires forall k :: i <= k < j ==> !Clears(At(states, acts, k), id)
    ensures Used(states[j].mem.blocks, id)
    decreases j - i
  {
    hide Used, Apply, EventOf, Safe, Start, Enabled, Complete;
    if i < j {
      StaysUsed(states, acts, id, i, j - 1);
      RunSafe(states, acts, j - 1);
      assert Complete(states[j - 1], acts[j - 1]);
      EventLaw(states[j - 1], acts[j - 1], id);
      assert !Clears(At(states, acts, j - 1), id);
    }
  }

  /** Between two allocations of one ID lies a release of it. */
  lemma FlipsAlternate(states: seq<Sys>, acts: seq<Action>, id: nat, i: nat, j: nat)
    requires CleanRun(states, acts) && i < j < |acts|
    requires Flips(At(states, acts, i), id) && Flips(At(states, acts, j), id)
    ensures exists k :: i < k < j && Clears(At(states, acts, k), id)
  {
    hide Used, Apply, EventOf, Safe, Start, Enabled, Complete;
    RunSafe(states, acts, i);
    RunSafe(states, acts, j);
    assert Complete(states[i], acts[i]) && Complete(states[j], acts[j]);
    EventLaw(states[i], acts[i], id);
    EventLaw(states[j], acts[j], id);
    if forall k :: i + 1 <= k < j ==> !Clears(At(states, acts, k), id) {
      StaysUsed(states, acts, id, i + 1, j);
    }
  }

  /** A thread about to return an ID got there by its own step that set the ID's bit. */
  lemma ArrivedByFlip(s: Sys, a: Action, t: Tid, id: nat)
    requires Enabled(s, a) && Pc(Apply(s, a), t) == Acquired(id) && Pc(s, t) != Acquired(id)
    ensures EventOf(s, a) == Flip(t, id)
  {
    hide Used, BlockOf, BlockKey;
  }

  /** Every return rests on an earlier 0-to-1 flip by the same thread, with no return in between. */
  lemma {:induction false} ReturnHasFlip(states: seq<Sys>, acts: seq<Action>, t: Tid, id: nat, j: nat) returns (i: nat)
    requires IsRun(states, acts) && j <= |acts| && Pc(states[j], t) == Acquired(id)
    ensures i < j && At(states, acts, i) == Flip(t, id)
    ensures forall k :: i < k <= j ==> Pc(states[k], t) == Acquired(id)
  {
    hide Used, Apply, EventOf, Enabled;
    if Pc(states[j - 1], t) == Acquired(id) {
      i := ReturnHasFlip(states, acts, t, id, j - 1);
    } else {
      ArrivedByFlip(states[j - 1], acts[j - 1], t, id);
      i := j - 1;
    }
  }

  /** For every interleaving, whatever callers free: two returns of one ID rest on two different
      allocations of it, and between those allocations the ID was released. */
  lemma ReturnsAreSeparated(states: seq<Sys>, acts: seq<Action>, id: nat, t: Tid, j: nat, u: Tid, k: nat)
    returns (f: nat, g: nat, c: nat)
    requires CleanRun(states, acts) && j < k < |acts|
    requires At(states, acts, j) == Return(t, id) && At(states, acts, k) == Return(u, id)
    ensures f < j && At(states, acts, f) == Flip(t, id)
    ensures g < k && At(states, acts, g) == Flip(u, id)
    ensures (f < c < g || g < c < f) && c < |acts| && Clears(At(states, acts, c), id)
    ensures forall m :: f < m <= j ==> Pc(states[m], t) == Acquired(id)
    ensures forall m :: g < m <= k ==> Pc(states[m], u) == Acquired(id)
  {
    hide Used, Enabled;
    f := ReturnHasFlip(states, acts, t, id, j);
    g := ReturnHasFlip(states, acts, u, id, k);
    assert Pc(states[j + 1], t) == Idle;
    if f < g {
      FlipsAlternate(states, acts, id, f, g);
      c :| f < c < g && Clears(At(states, acts, c), id);
    } else {
      FlipsAlternate(states, acts, id, g, f);
      c :| g < c < f && Clears(At(states, acts, c), id);
    }
  }

  /** The ID is cleared while a thread that got it has not returned it yet. */
  ghost predicate ClearedInFlight(states: seq<Sys>, acts: seq<Action>, id: nat, c: nat)
    requires |states| == |acts| + 1 && c < |acts|
  {
    Clears(At(states, acts, c), id) && exists t :: Pc(states[c], t) == Acquired(id)
  }

  /** Whatever callers free: if no release clears the ID while a thread that got it has not returned it
      yet, then between two returns of it a release has cleared its bit. */
  lemma ReturnedOnceUntilCleared(states: seq<Sys>, acts: seq<Action>, id: nat, t: Tid, j: nat, u: Tid, k: nat)
    requires CleanRun(states, acts) && j < k < |acts|
    requires At(states, acts, j) == Return(t, id) && At(states, acts, k) == Return(u, id)
    requires forall c :: 0 <= c < |acts| ==> !ClearedInFlight(states, acts, id, c)
    ensures exists c :: j < c < k && Clears(At(states, acts, c), id)
  {
    hide Start, Enabled, Apply, Complete, Pc, EventOf;
    var f, g, c := ReturnsAreSeparated(states, acts, id, t, j, u, k);
    assert !ClearedInFlight(states, acts, id, c);
  }

  // ---------------------------------------------------------------- callers that free only what they hold

  /** The discipline: `mark_free` is called only on an ID that was returned and not yet given back. */
  predicate Disciplined(s: Sys, a: Action) { a.CallFree? ==> a.id in s.held }

  ghost predicate DisciplinedRun(states: seq<Sys>, acts: seq<Action>) {
    CleanRun(states, acts) && forall i :: 0 <= i < |acts| ==> Disciplined(states[i], acts[i])
  }

  /** The ID that a thread alone is responsible for: just allocated, or being given back. */
  function Claim(pc: PC): Option<nat> {
    if pc.Acquired? then Some(pc.id) else Returning(pc)
  }

  predicate Stray(pc: PC) {
    (pc.MarkCheckId? || pc.MarkCheckBlock? || pc.MarkRmw?) && pc.why == Freeing(false)
  }

  /** Held IDs are used; claimed IDs are used, not held, and claimed once; nothing else is being freed. */
  ghost predicate Exclusive(s: Sys) {
    && (forall x :: x in s.held ==> Used(s.mem.blocks, x))
    && (forall t :: t in s.pcs ==> !Stray(s.pcs[t]))
    && (forall t :: t in s.pcs && Claim(s.pcs[t]).Some? ==>
          Used(s.mem.blocks, Claim(s.pcs[t]).value) && Claim(s.pcs[t]).value !in s.held)
    && (forall t, u :: t in s.pcs && u in s.pcs && t != u && Claim(s.pcs[t]).Some? ==> Claim(s.pcs[t]) != Claim(s.pcs[u]))
  }

  /** How one thread's step moves its claim: an ID is gained only by setting its bit, and lost only
      by handing it to the caller or by clearing its bit. */
  lemma ClaimMoves(m: State, w: Option<Tid>, t: Tid, pc: PC, ok: bool)
    requires !Stray(pc)
    ensures var e := StepFrom(m, w, t, pc, ok);
            && !Stray(e.pc)
            && (e.gives.Some? ==> e.gives == Claim(pc) && Claim(e.pc).None?)
            && (Claim(e.pc).Some? && Claim(e.pc) != Claim(pc) ==>
                  pc.MarkRmw? && ok && !pc.why.Freeing? && Claim(e.pc) == Some(pc.id) && !Used(m.blocks, pc.id))
            && (Claim(pc).Some? && Claim(e.pc) != Claim(pc) && e.gives.None? ==>
                  pc.MarkRmw? && ok && pc.why == Freeing(true))
            && (pc.MarkRmw? && ok && pc.why == Freeing(true) ==> e.gives.None? && Claim(e.pc).None?)
  {
    hide Used, BlockOf, BlockKey;
  }

  lemma GoExclusive(s: Sys, t: Tid, ok: bool)
    requires Safe(s) && Enabled(s, Go(t, ok)) && Exclusive(s)
    ensures Exclusive(Apply(s, Go(t, ok)))
  {
    hide Used, BlockOf, BlockKey, MemSafe, PcSafe, HoldsLock, NeedsLock, Claim, Stray;
    assert t in s.pcs;
    StepFromSafe(s.mem, s.writer, t, Pc(s, t), ok);
    ClaimMoves(s.mem, s.writer, t, Pc(s, t), ok);
    ClaimOfMark(Pc(s, t));
    hide StepFrom;
  }

  lemma ClaimOfMark(pc: PC)
    ensures pc.MarkRmw? && pc.why == Freeing(true) ==> Claim(pc) == Some(pc.id)
    ensures pc.MarkRmw? && !pc.why.Freeing? ==> Claim(pc) == None
    ensures pc.MarkRmw? && pc.why == Freeing(false) ==> Stray(pc)
    ensures pc.Acquired? ==> Claim(pc) == Some(pc.id)
    ensures pc == CheckFlag ==> Claim(pc) == None && !Stray(pc)
    ensures pc.MarkCheckId? && pc.why == Freeing(true) ==> Claim(pc) == Some(pc.id) && !Stray(pc)
    ensures pc == Idle ==> Claim(pc) == None
    ensures Returning(pc).Some? ==> Claim(pc) == Returning(pc)
  {
  }

  lemma StepExclusive(s: Sys, a: Action)
    requires Safe(s) && Enabled(s, a) && Complete(s, a) && Exclusive(s) && Disciplined(s, a)
    ensures Exclusive(Apply(s, a))
  {
    match a
    case Go(t, ok) => GoExclusive(s, t, ok);
    case Crash(n, lo) => CrashExclusive(s, n, lo);
    case _ =>
      hide Used, BlockOf, BlockKey, MemSafe, PcSafe, HoldsLock, NeedsLock, StepFrom, Claim, Stray;
      ClaimOfMark(Pc(s, a.t));
      ClaimOfMark(Pc(Apply(s, a), a.t));
  }

  lemma CrashExclusive(s: Sys, n: nat, lo: nat)
    requires MemSafe(s.mem) && Enabled(s, Crash(n, lo)) && Complete(s, Crash(n, lo)) && Exclusive(s)
    ensures Exclusive(Apply(s, Crash(n, lo)))
  {
    hide Used, BlockOf, BlockKey;
    RestartSafeIff(s.mem.blocks, n, lo);
    hide Restarted;
  }

  lemma {:induction false} RunExclusive(states: seq<Sys>, acts: seq<Action>, i: nat)
    requires DisciplinedRun(states, acts) && i <= |acts|
    ensures Exclusive(states[i])
  {
    hide Safe, Apply, Enabled, Used;
    if i > 0 {
      RunExclusive(states, acts, i - 1);
      RunSafe(states, acts, i - 1);
      assert Disciplined(states[i - 1], acts[i - 1]);
      StepExclusive(states[i - 1], acts[i - 1]);
    }
  }

  /** Disciplined callers never clear an ID in flight: only a thread that claims it clears it. */
  lemma ClaimedByClearer(s: Sys, a: Action, id: nat, t: Tid)
    requires Enabled(s, a) && Exclusive(s) && Clears(EventOf(s, a), id)
    ensures Pc(s, t) != Acquired(id)
  {
    hide Used, Stray, Claim;
    ClaimOfMark(Pc(s, a.t));
    ClaimOfMark(Pc(s, t));
  }

  /** For every interleaving with disciplined callers, store failures and complete restarts included: once
      an ID has been returned it is not returned again, to anyone, until a release has cleared its bit. */
  lemma ReturnedOnceUntilReleased(states: seq<Sys>, acts: seq<Action>, id: nat, t: Tid, j: nat, u: Tid, k: nat)
    requires DisciplinedRun(states, acts) && j < k < |acts|
    requires At(states, acts, j) == Return(t, id) && At(states, acts, k) == Return(u, id)
    ensures exists c :: j < c < k && Clears(At(states, acts, c), id)
  {
    hide Used, Exclusive, Enabled, Apply, EventOf, Complete, Pc;
    forall c | 0 <= c < |acts|
      ensures !ClearedInFlight(states, acts, id, c)
    {
      if ClearedInFlight(states, acts, id, c) {
        var v :| Pc(states[c], v) == Acquired(id);
        RunExclusive(states, acts, c);
        ClaimedByClearer(states[c], acts[c], id, v);
      }
    }
    ReturnedOnceUntilCleared(states, acts, id, t, j, u, k);
  }

  // ---------------------------------------------------------------- who clears bits

  /** A thread on its way to clearing a bit. */
  predicate Releasing(pc: PC) { (pc.MarkCheckId? || pc.MarkCheckBlock? || pc.MarkRmw?) && pc.why.Freeing? }

  lemma NotReleasing(s: Sys, a: Action)
    requires Enabled(s, a) && !a.CallFree? && forall t :: !Releasing(Pc(s, t))
    ensures !EventOf(s, a).Clear? && forall t :: !Releasing(Pc(Apply(s, a), t))
  {
    hide Used, BlockOf, BlockKey, Restarted;
    if a.Go? {
      assert !Releasing(Pc(s, a.t));
      assert !Releasing(StepFrom(s.mem, s.writer, a.t, Pc(s, a.t), a.ok).pc);
      hide StepFrom;
    }
    forall t
      ensures !Releasing(Pc(Apply(s, a), t))
    {
      assert !Releasing(Pc(s, t));
    }
  }

  /** Bits are cleared only on behalf of `mark_free`. */
  lemma {:induction false} NoFreeNoClear(states: seq<Sys>, acts: seq<Action>, n: nat)
    requires IsRun(states, acts) && n <= |acts| && forall i :: 0 <= i < n ==> !acts[i].CallFree?
    ensures forall t :: !Releasing(Pc(states[n], t))
    ensures forall i :: 0 <= i < n ==> !At(states, acts, i).Clear?
  {
    hide Enabled, Apply, EventOf, Releasing;
    if n == 0 {
      assert !Releasing(Idle) by { IdleIsNotReleasing(); }
    } else {
      NoFreeNoClear(states, acts, n - 1);
      NotReleasing(states[n - 1], acts[n - 1]);
    }
  }

  lemma IdleIsNotReleasing()
    ensures !Releasing(Idle)
  {
  }
}
