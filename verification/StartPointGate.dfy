/** `ensure_index_ready_or_init`: any number of threads meet at an index whose start point may not be
    set yet; one of them runs the initializer, the others wait. */
module StartPointGate {

  type Tid = nat

  datatype IndexState = NoStartPoints | SettingStartPoints | Ready

  /** Where a thread stands in the call. `Exchange` is about to compare-and-exchange, `InInit` is running
      the initializer, the two stores publish its outcome, `Returned` carries the result: success
      (`None` in the source) or the initializer's error. */
  datatype PC = Outside | Loading | Exchange | InInit | StoreReady | StoreBack | Returned(success: bool)

  datatype Gate = Gate(state: IndexState, pcs: map<Tid, PC>)

  /** A thread enters, or takes its next atomic step; `initOk` is the initializer's outcome. */
  datatype Action = Enter(t: Tid) | Go(t: Tid, initOk: bool)

  datatype Event = Quiet | InitStarts(t: Tid) | InitSucceeds(t: Tid) | InitFails(t: Tid) | Passes(t: Tid) | Fails(t: Tid)

  function Pc(g: Gate, t: Tid): PC { if t in g.pcs then g.pcs[t] else Outside }

  function Next(state: IndexState, pc: PC, initOk: bool): (IndexState, PC) {
    match pc
    case Loading =>
      (state, if state.Ready? then Returned(true) else if state.SettingStartPoints? then Loading else Exchange)
    case Exchange =>
      if state.NoStartPoints? then (SettingStartPoints, InInit) else (state, Loading)
    case InInit => (state, if initOk then StoreReady else StoreBack)
    case StoreReady => (Ready, Returned(true))
    case StoreBack => (NoStartPoints, Returned(false))
    case _ => (state, Outside)
  }

  predicate Enabled(g: Gate, a: Action) {
    match a
    case Enter(t) => Pc(g, t) == Outside
    case Go(t, _) => Pc(g, t) != Outside
  }

  function Apply(g: Gate, a: Action): Gate {
    match a
    case Enter(t) => g.(pcs := g.pcs[t := Loading])
    case Go(t, initOk) =>
      var (state, pc) := Next(g.state, Pc(g, t), initOk);
      Gate(state, g.pcs[t := pc])
  }

  function EventOf(g: Gate, a: Action): Event {
    if a.Enter? then Quiet
    else
      match Pc(g, a.t)
      case Exchange => if g.state.NoStartPoints? then InitStarts(a.t) else Quiet
      case InInit => if a.initOk then InitSucceeds(a.t) else InitFails(a.t)
      case Returned(success) => if success then Passes(a.t) else Fails(a.t)
      case _ => Quiet
  }

  predicate Busy(pc: PC) { pc.InInit? || pc.StoreReady? || pc.StoreBack? }

  /** The state word is `SettingStartPoints` exactly while one thread is between winning the exchange and
      publishing the outcome; a thread that returned success did so with the index ready. */
  ghost predicate Safe(g: Gate) {
    && (forall t :: t in g.pcs && Busy(g.pcs[t]) ==> g.state == SettingStartPoints)
    && (g.state == SettingStartPoints ==> exists t :: t in g.pcs && Busy(g.pcs[t]))
    && (forall t, u :: t in g.pcs && u in g.pcs && Busy(g.pcs[t]) && Busy(g.pcs[u]) ==> t == u)
    && (forall t :: t in g.pcs && g.pcs[t] == Returned(true) ==> g.state == Ready)
  }

  lemma StepSafe(g: Gate, a: Action)
    requires Safe(g) && Enabled(g, a)
    ensures Safe(Apply(g, a))
    ensures g.state == Ready ==> Apply(g, a).state == Ready
  {
    var g' := Apply(g, a);
    if g'.state == SettingStartPoints {
      if g.state == SettingStartPoints {
        var t :| t in g.pcs && Busy(g.pcs[t]);
        assert t in g'.pcs;
        if a.t == t {
          assert Busy(g'.pcs[t]);
        } else {
          assert g'.pcs[t] == g.pcs[t];
        }
      } else {
        assert Busy(g'.pcs[a.t]);
      }
    }
  }

  // ---------------------------------------------------------------- runs

  /** A run starts with no thread inside; the index may already be ready. */
  ghost predicate IsRun(gates: seq<Gate>, acts: seq<Action>) {
    && |gates| == |acts| + 1
    && gates[0].pcs == map[] && gates[0].state != SettingStartPoints
    && forall i :: 0 <= i < |acts| ==> Enabled(gates[i], acts[i]) && gates[i + 1] == Apply(gates[i], acts[i])
  }

  ghost function At(gates: seq<Gate>, acts: seq<Action>, i: nat): Event
    requires |gates| == |acts| + 1 && i < |acts|
  {
    EventOf(gates[i], acts[i])
  }

  lemma {:induction false} RunSafe(gates: seq<Gate>, acts: seq<Action>, i: nat)
    requires IsRun(gates, acts) && i <= |acts|
    ensures Safe(gates[i])
  {
    if i > 0 {
      RunSafe(gates, acts, i - 1);
      hide Safe, Apply, Enabled;
      StepSafe(gates[i - 1], acts[i - 1]);
    }
  }

  /** Ready is never left. */
  lemma {:induction false} ReadyIsKept(gates: seq<Gate>, acts: seq<Action>, i: nat, j: nat)
    requires IsRun(gates, acts) && i <= j <= |acts| && gates[i].state == Ready
    ensures gates[j].state == Ready
    decreases j - i
  {
    if i < j {
      ReadyIsKept(gates, acts, i, j - 1);
      RunSafe(gates, acts, j - 1);
      StepSafe(gates[j - 1], acts[j - 1]);
    }
  }

  /** At most one thread is inside the initializer. */
  lemma InitIsExclusive(gates: seq<Gate>, acts: seq<Action>, i: nat, t: Tid, u: Tid)
    requires IsRun(gates, acts) && i <= |acts| && Pc(gates[i], t) == InInit && Pc(gates[i], u) == InInit
    ensures t == u && gates[i].state == SettingStartPoints
  {
    RunSafe(gates, acts, i);
  }

  /** A caller passes the gate only once the index is ready, and it stays ready. */
  lemma PassingMeansReady(gates: seq<Gate>, acts: seq<Action>, i: nat, j: nat, t: Tid)
    requires IsRun(gates, acts) && i < |acts| && i <= j <= |acts| && At(gates, acts, i) == Passes(t)
    ensures gates[j].state == Ready
  {
    RunSafe(gates, acts, i);
    ReadyIsKept(gates, acts, i, j);
  }

  /** After a success, the thread that succeeded keeps the word busy until it publishes Ready; so from
      then on no exchange can be won. */
  ghost predicate Decided(g: Gate) {
    g.state == Ready || exists t :: t in g.pcs && g.pcs[t] == StoreReady
  }

  lemma StepDecided(g: Gate, a: Action)
    requires Safe(g) && Enabled(g, a) && Decided(g)
    ensures Decided(Apply(g, a)) && !EventOf(g, a).InitStarts?
  {
    StepSafe(g, a);
    if g.state != Ready {
      var t :| t in g.pcs && g.pcs[t] == StoreReady;
      assert Busy(g.pcs[t]);
      assert g.state == SettingStartPoints;
      var g' := Apply(g, a);
      if a.t != t {
        assert t in g'.pcs && g'.pcs[t] == StoreReady;
      }
    }
  }

  lemma {:induction false} StaysDecided(gates: seq<Gate>, acts: seq<Action>, i: nat, j: nat)
    requires IsRun(gates, acts) && i <= j <= |acts| && Decided(gates[i])
    ensures Decided(gates[j])
    decreases j - i
  {
    if i < j {
      StaysDecided(gates, acts, i, j - 1);
      RunSafe(gates, acts, j - 1);
      hide Safe, Decided, Apply, Enabled;
      StepDecided(gates[j - 1], acts[j - 1]);
    }
  }

  /** The initializer is never started again after it has succeeded. */
  lemma InitSucceedsOnce(gates: seq<Gate>, acts: seq<Action>, i: nat, j: nat, t: Tid)
    requires IsRun(gates, acts) && i < j < |acts| && At(gates, acts, i) == InitSucceeds(t)
    ensures !At(gates, acts, j).InitStarts?
  {
    assert t in gates[i + 1].pcs && gates[i + 1].pcs[t] == StoreReady;
    StaysDecided(gates, acts, i + 1, j);
    RunSafe(gates, acts, j);
    StepDecided(gates[j], acts[j]);
  }

  // ---------------------------------------------------------------- no readiness without a success

  lemma {:induction false} PublishedAfterInit(gates: seq<Gate>, acts: seq<Action>, j: nat, t: Tid, ok: bool) returns (i: nat)
    requires IsRun(gates, acts) && j <= |acts| && Pc(gates[j], t) == if ok then StoreReady else StoreBack
    ensures i < j && At(gates, acts, i) == if ok then InitSucceeds(t) else InitFails(t)
  {
    if Pc(gates[j - 1], t) == Pc(gates[j], t) {
      i := PublishedAfterInit(gates, acts, j - 1, t, ok);
    } else {
      i := j - 1;
    }
  }

  /** An index that was not ready becomes ready only through an initializer that succeeded. */
  lemma {:induction false} ReadyMeansInitSucceeded(gates: seq<Gate>, acts: seq<Action>, j: nat) returns (i: nat, t: Tid)
    requires IsRun(gates, acts) && j <= |acts| && gates[0].state == NoStartPoints && gates[j].state == Ready
    ensures i < j && At(gates, acts, i) == InitSucceeds(t)
  {
    if gates[j - 1].state == Ready {
      i, t := ReadyMeansInitSucceeded(gates, acts, j - 1);
    } else {
      t := acts[j - 1].t;
      i := PublishedAfterInit(gates, acts, j - 1, t, true);
    }
  }

  lemma {:induction false} FailureReturned(gates: seq<Gate>, acts: seq<Action>, j: nat, t: Tid) returns (i: nat)
    requires IsRun(gates, acts) && j <= |acts| && Pc(gates[j], t) == Returned(false)
    ensures i < j && At(gates, acts, i) == InitFails(t)
  {
    if Pc(gates[j - 1], t) == Returned(false) {
      i := FailureReturned(gates, acts, j - 1, t);
    } else {
      i := PublishedAfterInit(gates, acts, j - 1, t, false);
    }
  }

  /** A caller gets an error only from its own initializer, and publishing that failure reopens the gate. */
  lemma ErrorIsOwnInit(gates: seq<Gate>, acts: seq<Action>, j: nat, t: Tid) returns (i: nat)
    requires IsRun(gates, acts) && j < |acts|
    requires At(gates, acts, j) == Fails(t) || (acts[j].Go? && acts[j].t == t && Pc(gates[j], t) == StoreBack)
    ensures i < j && At(gates, acts, i) == InitFails(t)
    ensures Pc(gates[j], t) == StoreBack ==> gates[j + 1].state == NoStartPoints
  {
    if Pc(gates[j], t) == StoreBack {
      i := PublishedAfterInit(gates, acts, j, t, false);
    } else {
      i := FailureReturned(gates, acts, j, t);
    }
  }

  // ---------------------------------------------------------------- callers get through

  /** How many of its own steps a caller at a ready gate needs before the one with which it passes. */
  function Distance(pc: PC): nat {
    if pc.Exchange? then 2 else if pc.Loading? then 1 else 0
  }

  ghost function OwnSteps(acts: seq<Action>, t: Tid, i: nat, j: nat): nat
    requires i <= j <= |acts|
    decreases j - i
  {
    if i == j then 0 else (if acts[i].Go? && acts[i].t == t then 1 else 0) + OwnSteps(acts, t, i + 1, j)
  }

  /** At a ready gate a caller passes with its own next steps, three at most, whatever others do in between. */
  lemma {:induction false} ReadyCallerPasses(gates: seq<Gate>, acts: seq<Action>, t: Tid, i: nat, j: nat) returns (k: nat)
    requires IsRun(gates, acts) && i <= j <= |acts| && gates[i].state == Ready
    requires var pc := Pc(gates[i], t); pc.Loading? || pc.Exchange? || pc == Returned(true)
    requires OwnSteps(acts, t, i, j) > Distance(Pc(gates[i], t))
    ensures i <= k < j && At(gates, acts, k) == Passes(t)
    decreases j - i
  {
    RunSafe(gates, acts, i);
    StepSafe(gates[i], acts[i]);
    hide Safe;
    if acts[i].Go? && acts[i].t == t && Pc(gates[i], t) == Returned(true) {
      k := i;
    } else {
      k := ReadyCallerPasses(gates, acts, t, i + 1, j);
    }
  }

  /** A caller that loads the state and has to load it again waits for another one that is initializing. */
  lemma WaitsForInitializer(gates: seq<Gate>, acts: seq<Action>, t: Tid, i: nat) returns (u: Tid)
    requires IsRun(gates, acts) && i < |acts| && acts[i].Go? && acts[i].t == t
    requires Pc(gates[i], t) == Loading && Pc(gates[i + 1], t) == Loading
    ensures u != t && u in gates[i].pcs && Busy(gates[i].pcs[u])
  {
    RunSafe(gates, acts, i);
    u :| u in gates[i].pcs && Busy(gates[i].pcs[u]);
  }

  /** The steps of a caller that nobody disturbs. */
  function Alone(g: Gate, t: Tid, initOk: bool, n: nat): Gate {
    if n == 0 then g else Apply(Alone(g, t, initOk, n - 1), Go(t, initOk))
  }

  /** A caller that nobody disturbs runs the initializer exactly if the index is not ready, publishes its
      outcome and returns it. */
  lemma LoneCaller(g: Gate, t: Tid, initOk: bool)
    requires Pc(g, t) == Outside && g.state != SettingStartPoints
    ensures var entered := Apply(g, Enter(t));
            && (g.state == Ready ==> Alone(entered, t, initOk, 1) == Gate(Ready, g.pcs[t := Returned(true)]))
            && (g.state == NoStartPoints ==>
                  && EventOf(Alone(entered, t, initOk, 1), Go(t, initOk)) == InitStarts(t)
                  && EventOf(Alone(entered, t, initOk, 2), Go(t, initOk)) == (if initOk then InitSucceeds(t) else InitFails(t))
                  && Alone(entered, t, initOk, 4)
                     == Gate(if initOk then Ready else NoStartPoints, g.pcs[t := Returned(initOk)]))
  {
    var e := Apply(g, Enter(t));
    assert Alone(e, t, initOk, 0) == e;
    if g.state == Ready {
      assert Alone(e, t, initOk, 1) == Apply(e, Go(t, initOk));
      assert g.pcs[t := Loading][t := Returned(true)] == g.pcs[t := Returned(true)];
    } else {
      assert Alone(e, t, initOk, 1) == Gate(NoStartPoints, g.pcs[t := Exchange]);
      assert Alone(e, t, initOk, 2) == Gate(SettingStartPoints, g.pcs[t := InInit]);
      assert Alone(e, t, initOk, 3) == Gate(SettingStartPoints, g.pcs[t := if initOk then StoreReady else StoreBack]);
      assert Alone(e, t, initOk, 4) == Gate(if initOk then Ready else NoStartPoints, g.pcs[t := Returned(initOk)]);
    }
  }
}
