/** Paths of the protocol: what can be reached from a state by which actions. */
module FsmReach {
  import opened Collections
  import opened FsmProtocol

  ghost predicate Path(states: seq<Sys>, acts: seq<Action>) {
    && |states| == |acts| + 1
    && forall i :: 0 <= i < |acts| ==> Enabled(states[i], acts[i]) && states[i + 1] == Apply(states[i], acts[i])
  }

  /** No restart, and no call of `mark_free` unless `frees` says so. */
  predicate Allowed(a: Action, frees: bool) { !a.Crash? && (a.CallFree? ==> frees) }

  ghost predicate PathBetween(states: seq<Sys>, acts: seq<Action>, s: Sys, s': Sys, frees: bool) {
    && Path(states, acts) && states[0] == s && states[|acts|] == s'
    && forall i :: 0 <= i < |acts| ==> Allowed(acts[i], frees)
  }

  ghost predicate Reaches(s: Sys, s': Sys, frees: bool) {
    exists states, acts :: PathBetween(states, acts, s, s', frees)
  }

  lemma Here(s: Sys, frees: bool)
    ensures Reaches(s, s, frees)
  {
    assert PathBetween([s], [], s, s, frees);
  }

  lemma Move(o: Sys, s: Sys, a: Action, frees: bool)
    requires Reaches(o, s, frees) && Enabled(s, a) && Allowed(a, frees)
    ensures Reaches(o, Apply(s, a), frees)
  {
    hide Enabled, Apply;
    var states, acts :| PathBetween(states, acts, o, s, frees);
    assert PathBetween(states + [Apply(s, a)], acts + [a], o, Apply(s, a), frees);
  }

  lemma Witness(s: Sys, s': Sys, frees: bool) returns (states: seq<Sys>, acts: seq<Action>)
    requires Reaches(s, s', frees)
    ensures PathBetween(states, acts, s, s', frees)
  {
    states, acts :| PathBetween(states, acts, s, s', frees);
  }

  lemma MoreAllowed(s: Sys, s': Sys)
    requires Reaches(s, s', false)
    ensures Reaches(s, s', true)
  {
    hide Path;
    var states, acts := Witness(s, s', false);
    assert PathBetween(states, acts, s, s', true);
  }

  /** One step of one thread whose effect is known. */
  lemma Walk(o: Sys, s: Sys, t: Tid, pc: PC, ok: bool, e: Effect, frees: bool) returns (s': Sys)
    requires Reaches(o, s, frees) && Pc(s, t) == pc && pc != Idle && (NeedsLock(pc) ==> s.writer == None)
    requires StepFrom(s.mem, s.writer, t, pc, ok) == e
    ensures Reaches(o, s', frees)
    ensures s'.mem == e.mem && s'.writer == e.writer && Pc(s', t) == e.pc
    ensures forall u :: u != t ==> Pc(s', u) == Pc(s, u)
    ensures e.gives.None? ==> s'.held == s.held
  {
    hide StepFrom, Reaches;
    s' := Apply(s, Go(t, ok));
    Move(o, s, Go(t, ok), frees);
  }

  /** An idle thread calls `next_id`. */
  lemma Call(o: Sys, s: Sys, t: Tid, frees: bool) returns (s': Sys)
    requires Reaches(o, s, frees) && Pc(s, t) == Idle
    ensures Reaches(o, s', frees) && s' == s.(pcs := s'.pcs) && Pc(s', t) == CheckFlag
    ensures forall u :: u != t ==> Pc(s', u) == Pc(s, u)
  {
    hide Reaches;
    s' := Apply(s, CallNext(t));
    Move(o, s, CallNext(t), frees);
  }

  /** An idle thread calls `mark_free`. */
  lemma CallMarkFree(o: Sys, s: Sys, t: Tid, id: nat) returns (s': Sys)
    requires Reaches(o, s, true) && Pc(s, t) == Idle
    ensures Reaches(o, s', true) && s'.mem == s.mem && s'.writer == s.writer
    ensures Pc(s', t) == MarkCheckId(id, Freeing(id in s.held))
    ensures forall u :: u != t ==> Pc(s', u) == Pc(s, u)
  {
    hide Reaches;
    s' := Apply(s, CallFree(t, id));
    Move(o, s, CallFree(t, id), true);
  }
}
