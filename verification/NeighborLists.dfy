/** Stored neighbour lists and the cached list of vertex 0. A list is stored in `maxDegree + 1` words,
    the last of which is its length. */
module NeighborLists {
  import opened Collections

  /** A well-formed stored value. */
  ghost predicate Stored(data: seq<nat>, maxDegree: nat) {
    |data| == maxDegree + 1 && data[maxDegree] <= maxDegree
  }

  function ListOf(data: seq<nat>, maxDegree: nat): seq<nat>
    requires |data| == maxDegree + 1
  {
    if data[maxDegree] <= maxDegree then data[..data[maxDegree]] else data[..maxDegree]
  }

  // ---------------------------------------------------------------- appending

  /** Append neighbours one by one, skipping those present, until the list is full. */
  function Append(list: seq<nat>, ns: seq<nat>, cap: nat): seq<nat>
    decreases |ns|
  {
    if ns == [] || |list| == cap then list
    else if ns[0] in list then Append(list, ns[1..], cap)
    else Append(list + [ns[0]], ns[1..], cap)
  }

  /** The loop leaves early: a neighbour is still to be looked at when the list is full. */
  predicate LeavesEarly(list: seq<nat>, ns: seq<nat>, cap: nat)
    decreases |ns|
  {
    ns != [] && (|list| == cap || LeavesEarly(if ns[0] in list then list else list + [ns[0]], ns[1..], cap))
  }

  /** The neighbours of `ns` that are new to `list`, first occurrences only, in order. */
  function NewOnes(list: seq<nat>, ns: seq<nat>): seq<nat>
    decreases |ns|
  {
    if ns == [] then []
    else if ns[0] in list then NewOnes(list, ns[1..])
    else [ns[0]] + NewOnes(list + [ns[0]], ns[1..])
  }

  /** An append yields the old list followed by the new neighbours in order, cut at the capacity. */
  lemma {:induction false} AppendIs(list: seq<nat>, ns: seq<nat>, cap: nat)
    requires |list| <= cap
    ensures Append(list, ns, cap) == list + Take(NewOnes(list, ns), cap - |list|)
    ensures |Append(list, ns, cap)| <= cap
    decreases |ns|
  {
    if ns == [] || |list| == cap {
      assert list + [] == list;
    } else if ns[0] in list {
      AppendIs(list, ns[1..], cap);
    } else {
      AppendIs(list + [ns[0]], ns[1..], cap);
      assert NewOnes(list, ns) == [ns[0]] + NewOnes(list + [ns[0]], ns[1..]);
      assert Append(list, ns, cap) == Append(list + [ns[0]], ns[1..], cap);
      hide NewOnes, Append;
      TakeCons(list, ns[0], NewOnes(list + [ns[0]], ns[1..]), cap - |list|);
    }
  }

  lemma TakeCons(list: seq<nat>, x: nat, rest: seq<nat>, n: nat)
    requires n > 0
    ensures list + Take([x] + rest, n) == (list + [x]) + Take(rest, n - 1)
  {
    assert Take([x] + rest, n) == [x] + Take(rest, n - 1);
  }

  /** What is new comes from `ns` and is absent from `list`; nothing new is missed. */
  lemma {:induction false} NewOnesMember(list: seq<nat>, ns: seq<nat>, x: nat)
    ensures x in NewOnes(list, ns) <==> x in ns && x !in list
    decreases |ns|
  {
    if ns != [] {
      assert ns == [ns[0]] + ns[1..];
      if ns[0] in list {
        NewOnesMember(list, ns[1..], x);
      } else {
        NewOnesMember(list + [ns[0]], ns[1..], x);
      }
    }
  }

  /** No new neighbour is listed twice. */
  lemma {:induction false} NewOnesDistinct(list: seq<nat>, ns: seq<nat>)
    ensures Distinct(NewOnes(list, ns))
    decreases |ns|
  {
    if ns != [] {
      if ns[0] in list {
        NewOnesDistinct(list, ns[1..]);
      } else {
        NewOnesDistinct(list + [ns[0]], ns[1..]);
        NewOnesMember(list + [ns[0]], ns[1..], ns[0]);
      }
    }
  }

  lemma {:induction false} AppendKeepsDistinct(list: seq<nat>, ns: seq<nat>, cap: nat)
    requires Distinct(list)
    ensures Distinct(Append(list, ns, cap))
    decreases |ns|
  {
    if ns != [] && |list| != cap {
      AppendKeepsDistinct(if ns[0] in list then list else list + [ns[0]], ns[1..], cap);
    }
  }

  lemma {:induction false} AppendExtends(list: seq<nat>, ns: seq<nat>, cap: nat)
    requires |list| <= cap
    ensures list <= Append(list, ns, cap)
  {
    AppendIs(list, ns, cap);
  }

  /** An early exit happens exactly when the list is already full before the last neighbour; it leaves
      the list full, so it added something if and only if there was room. */
  lemma {:induction false} EarlyExitIff(list: seq<nat>, ns: seq<nat>, cap: nat)
    requires |list| <= cap
    ensures LeavesEarly(list, ns, cap) <==> ns != [] && |Append(list, ns[..|ns| - 1], cap)| == cap
    ensures LeavesEarly(list, ns, cap) ==> |Append(list, ns, cap)| == cap
    decreases |ns|
  {
    if ns != [] && |list| != cap {
      var list' := if ns[0] in list then list else list + [ns[0]];
      EarlyExitIff(list', ns[1..], cap);
      if |ns| == 1 {
        assert ns[..0] == [];
      } else {
        assert ns[..|ns| - 1][1..] == ns[1..][..|ns[1..]| - 1] && ns[..|ns| - 1][0] == ns[0];
      }
    }
  }

  /** The closure that runs inside the read-modify-write: it edits the stored words in place. */
  method AppendInPlace(data: array<nat>, ns: seq<nat>, maxDegree: nat) returns (len: nat, early: bool)
    requires data.Length == maxDegree + 1
    modifies data
    ensures early == LeavesEarly(ListOf(old(data[..]), maxDegree), ns, maxDegree)
    ensures len <= maxDegree && data[..len] == Append(ListOf(old(data[..]), maxDegree), ns, maxDegree)
    ensures data[maxDegree] == (if data[..len] == ListOf(old(data[..]), maxDegree) then old(data[maxDegree]) else len)
    ensures ListOf(data[..], maxDegree) == data[..len]
    ensures old(data[maxDegree]) <= maxDegree ==> data[maxDegree] <= maxDegree
  {
    ghost var before := ListOf(data[..], maxDegree);
    len := if data[maxDegree] < maxDegree then data[maxDegree] else maxDegree;
    for i := 0 to |ns|
      invariant len <= maxDegree && before <= data[..len]
      invariant ListOf(data[..], maxDegree) == data[..len]
      invariant Append(before, ns, maxDegree) == Append(data[..len], ns[i..], maxDegree)
      invariant LeavesEarly(before, ns, maxDegree) == LeavesEarly(data[..len], ns[i..], maxDegree)
      invariant data[maxDegree] == if data[..len] == before then old(data[maxDegree]) else len
    {
      if len == maxDegree {
        return len, true;
      }
      assert ns[i..][1..] == ns[i + 1..];
      if ns[i] in data[..len] {
        continue;
      }
      ghost var list := data[..len];
      data[len] := ns[i];
      len := len + 1;
      data[maxDegree] := len;
      assert data[..len] == list + [ns[i]];
    }
    early := false;
  }

  // ---------------------------------------------------------------- the store and the cache

  /** Whether a start vector is stored, the stored lists by vertex, and the cached list of vertex 0. */
  datatype View = View(started: bool, stored: map<nat, seq<nat>>, cache: Option<seq<nat>>)

  /** Operations, each with the outcome of its store accesses. Setting the start point reads the vector of
      vertex 0, may be given another internal ID than 0, and writes vector and list; `listOk` is the read or
      the write of the list. `scratch` is what the reused write buffer held before. */
  datatype Op =
    | SetStartPoint(readOk: bool, idIsZero: bool, vectorOk: bool, listOk: bool)
    | SetNeighbors(id: nat, ns: seq<nat>, scratch: seq<nat>, ok: bool)
    | AppendVector(id: nat, ns: seq<nat>, ok: bool)

  function Zeroes(maxDegree: nat): seq<nat> { seq(maxDegree + 1, _ => 0) }

  /** What the caller must respect: a list to be written is no longer than the degree bound. */
  predicate Legal(op: Op, maxDegree: nat) {
    op.SetNeighbors? ==> |op.ns| <= maxDegree && |op.scratch| == maxDegree + 1
  }

  function Written(op: Op, maxDegree: nat): (data: seq<nat>)
    requires op.SetNeighbors? && Legal(op, maxDegree)
    ensures |data| == maxDegree + 1 && data[maxDegree] == |op.ns| && data[..|op.ns|] == op.ns
  {
    (op.ns + op.scratch[|op.ns|..])[maxDegree := |op.ns|]
  }

  /** The list of a vertex; a vertex without one reads as empty inside a read-modify-write. */
  function ListAt(v: View, maxDegree: nat, id: nat): seq<nat> {
    if id in v.stored && |v.stored[id]| == maxDegree + 1 then ListOf(v.stored[id], maxDegree) else []
  }

  /** Stored values are well formed, and a cached list is a prefix of a stored one. */
  ghost predicate Sound(v: View, maxDegree: nat) {
    && (forall id :: id in v.stored ==> Stored(v.stored[id], maxDegree))
    && (v.cache.Some? ==> 0 in v.stored && v.cache.value <= ListAt(v, maxDegree, 0))
  }

  ghost predicate UpToDate(v: View, maxDegree: nat) { v.cache.Some? ==> v.cache.value == ListAt(v, maxDegree, 0) }

  /** Equal as far as any reader can tell: the same vertices, lists and cache. */
  ghost predicate Same(v: View, w: View, maxDegree: nat) {
    v.started == w.started && v.cache == w.cache && v.stored.Keys == w.stored.Keys
    && forall id: nat :: ListAt(v, maxDegree, id) == ListAt(w, maxDegree, id)
  }

  /** Storing any words that hold the appended list, and refreshing the cache unless the loop left
      early, is the append step. */
  lemma AppendAgrees(v: View, op: Op, maxDegree: nat, data: seq<nat>, cache: Option<seq<nat>>)
    requires op.AppendVector? && op.ok && Sound(v, maxDegree) && |data| == maxDegree + 1
    requires var list := ListAt(v, maxDegree, op.id);
             && ListOf(data, maxDegree) == Append(list, op.ns, maxDegree)
             && data[maxDegree] <= maxDegree
             && cache == if !LeavesEarly(list, op.ns, maxDegree) && op.id == 0 && v.cache.Some?
                         then Some(Append(list, op.ns, maxDegree)) else v.cache
    ensures Sound(View(v.started, v.stored[op.id := data], cache), maxDegree)
    ensures Same(View(v.started, v.stored[op.id := data], cache), Step(v, op, maxDegree), maxDegree)
  {
    hide Append, LeavesEarly;
    var list := ListAt(v, maxDegree, op.id);
    AppendIs(list, op.ns, maxDegree);
    AppendExtends(list, op.ns, maxDegree);
  }

  class Provider {
    const maxDegree: nat
    var started: bool
    var stored: map<nat, seq<nat>>
    var cache: Option<seq<nat>>
    /** What the store held when the provider was opened, and the operations since. */
    ghost const origin: View
    ghost var history: seq<Op>

    constructor (maxDegree: nat, started: bool, stored: map<nat, seq<nat>>, cache: Option<seq<nat>>)
      requires Sound(View(started, stored, cache), maxDegree) && UpToDate(View(started, stored, cache), maxDegree)
      ensures this.maxDegree == maxDegree && origin == V() == View(started, stored, cache) && history == []
      ensures Valid()
    {
      this.maxDegree := maxDegree;
      this.started, this.stored, this.cache := started, stored, cache;
      origin := View(started, stored, cache);
      history := [];
    }

    /** Open a provider over what a store holds: a start vector that can be read brings its list into the
        cache, and without that list there is no provider. */
    static method Open(maxDegree: nat, started: bool, stored: map<nat, seq<nat>>, readOk: bool, listOk: bool)
      returns (p: Option<Provider>)
      requires Sound(View(started, stored, None), maxDegree)
      ensures p.None? <==> readOk && started && !(listOk && 0 in stored)
      ensures p.Some? ==> fresh(p.value) && p.value.Valid() && p.value.history == []
      ensures p.Some? ==> p.value.V() == Step(View(started, stored, None), SetStartPoint(readOk, false, false, listOk), maxDegree)
      ensures p.Some? ==> (p.value.cache.Some? <==> readOk && started)
    {
      var cache: Option<seq<nat>> := None;
      if readOk && started {
        if !listOk || 0 !in stored {
          return None;
        }
        cache := Some(ListOf(stored[0], maxDegree));
      }
      var provider := new Provider(maxDegree, started, stored, cache);
      p := Some(provider);
    }

    ghost function V(): View
      reads this
    {
      View(started, stored, cache)
    }

    /** The provider is where its operations have taken it. */
    ghost predicate Valid()
      reads this
    {
      && Sound(V(), maxDegree) && Sound(origin, maxDegree) && UpToDate(origin, maxDegree)
      && (forall op :: op in history ==> Legal(op, maxDegree))
      && Same(V(), Run(origin, history, maxDegree), maxDegree)
    }

    /** An operation that has taken its step has become history. */
    lemma Recorded(before: seq<Op>, v: View, op: Op)
      requires Legal(op, maxDegree) && history == before + [op]
      requires Sound(v, maxDegree) && Sound(origin, maxDegree) && UpToDate(origin, maxDegree)
      requires forall o :: o in before ==> Legal(o, maxDegree)
      requires Same(v, Run(origin, before, maxDegree), maxDegree)
      requires Sound(V(), maxDegree) && Same(V(), Step(v, op, maxDegree), maxDegree)
      ensures Valid()
    {
      assert forall o :: o in history ==> Legal(o, maxDegree);
      RunSound(origin, before, maxDegree);
      StepSame(v, Run(origin, before, maxDegree), op, maxDegree);
      hide Step;
      assert history[..|history| - 1] == before;
    }

    /** Adopt the stored start point, or store a new one with an empty list. A stored vector without a
        list, left behind by a failed write, cannot be adopted. */
    method SetStart(op: Op)
      requires op.SetStartPoint? && Valid()
      modifies this
      ensures Valid() && history == old(history) + [op]
      ensures !(op.readOk && old(started)) && op.idIsZero && op.vectorOk && op.listOk ==>
                started && 0 in stored && ListAt(V(), maxDegree, 0) == [] && cache == Some([])
      ensures forall id :: id != 0 ==> ListAt(V(), maxDegree, id) == ListAt(old(V()), maxDegree, id)
      ensures Same(V(), Step(old(V()), op, maxDegree), maxDegree)
    {
      if op.readOk && started {
        if op.listOk && 0 in stored {
          cache := Some(ListOf(stored[0], maxDegree));
        }
      } else if op.idIsZero && op.vectorOk {
        started := true;
        if op.listOk {
          stored := stored[0 := Zeroes(maxDegree)];
          cache := Some([]);
        }
      }
      history := history + [op];
      Recorded(old(history), old(V()), op);
    }

    /** Overwrite a list; vertex 0's cached copy follows. */
    method Set(op: Op)
      requires op.SetNeighbors? && Legal(op, maxDegree) && Valid()
      modifies this
      ensures Valid() && history == old(history) + [op]
      ensures op.ok ==> op.id in stored && ListAt(V(), maxDegree, op.id) == op.ns
      ensures forall id :: id != op.id || !op.ok ==> ListAt(V(), maxDegree, id) == ListAt(old(V()), maxDegree, id)
      ensures Same(V(), Step(old(V()), op, maxDegree), maxDegree)
    {
      if op.ok {
        stored := stored[op.id := Written(op, maxDegree)];
        if op.id == 0 {
          cache := Some(op.ns);
        }
      }
      history := history + [op];
      Recorded(old(history), old(V()), op);
    }

    /** Append to a list. Vertex 0's cached copy is refreshed only if the loop runs to its end. */
    method AppendTo(op: Op)
      requires op.AppendVector? && Valid()
      modifies this
      ensures Valid() && history == old(history) + [op]
      ensures op.ok ==> var list := ListAt(old(V()), maxDegree, op.id);
                op.id in stored && ListAt(V(), maxDegree, op.id) == list + Take(NewOnes(list, op.ns), maxDegree - |list|)
      ensures forall id :: id != op.id || !op.ok ==> ListAt(V(), maxDegree, id) == ListAt(old(V()), maxDegree, id)
      ensures Same(V(), Step(old(V()), op, maxDegree), maxDegree)
    {
      hide Sound, Same, Step;
      if op.ok {
        AppendStored(op);
      } else {
        NoStep(V(), op, maxDegree);
      }
      AppendShows(old(V()), V(), op, maxDegree);
      history := history + [op];
      Recorded(old(history), old(V()), op);
    }

    /** The read-modify-write; a missing list is created as zeroes first. */
    method AppendStored(op: Op)
      requires op.AppendVector? && op.ok && Sound(V(), maxDegree)
      modifies this`stored, this`cache
      ensures Sound(V(), maxDegree) && Same(V(), Step(old(V()), op, maxDegree), maxDegree)
    {
      ghost var v := V();
      var old0 := if op.id in stored then stored[op.id] else Zeroes(maxDegree);
      var data := new nat[maxDegree + 1](i requires 0 <= i < |old0| => old0[i]);
      assert data[..] == old0 && ListOf(old0, maxDegree) == ListAt(v, maxDegree, op.id);
      hide Sound, Same, Step, Append, LeavesEarly, ListAt;
      var len, early := AppendInPlace(data, op.ns, maxDegree);
      stored := stored[op.id := data[..]];
      if !early && op.id == 0 && cache.Some? {
        cache := Some(data[..len]);
      }
      AppendAgrees(v, op, maxDegree, data[..], cache);
    }

    /** What the operations since opening make of the lists. */
    ghost function Reference(): Lists
      requires Valid()
      reads this
    {
      ListsRun(ListsOf(origin, maxDegree), history, maxDegree)
    }

    /** Whatever happened before, a reader gets a prefix of the stored list, and gets the whole list
        unless it asks for vertex 0 after a history that lags. */
    method GetNeighbors(id: nat, readOk: bool) returns (r: Option<seq<nat>>)
      requires Valid()
      ensures r.Some? ==> id in stored && r.value <= ListAt(V(), maxDegree, id)
      ensures id in stored && readOk ==> r.Some?
      ensures r.Some? ==> (r.value == ListAt(V(), maxDegree, id) <==> !(id == 0 && Lags(origin, history, maxDegree)))
      ensures r.Some? ==> id in Reference().of && r.value <= Reference().of[id]
      ensures id != 0 && readOk ==> r == if id in Reference().of then Some(Reference().of[id]) else None
    {
      hide Run, Lags, Append, ListsRun, ListsOf;
      CacheOverRuns(origin, history, maxDegree);
      ListsOverRuns(origin, history, maxDegree);
      SameLists(V(), Run(origin, history, maxDegree), maxDegree);
      ListsAre(V(), maxDegree, id);
      if id == 0 && cache.Some? {
        return cache;
      }
      if !readOk || id !in stored {
        return None;
      }
      r := Some(ListOf(stored[id], maxDegree));
    }
  }

  // ---------------------------------------------------------------- runs

  /** The same operations on values. */
  function Step(v: View, op: Op, maxDegree: nat): View
    requires Legal(op, maxDegree)
  {
    match op
    case SetStartPoint(readOk, idIsZero, vectorOk, listOk) =>
      if readOk && v.started then
        if listOk && 0 in v.stored then v.(cache := Some(ListAt(v, maxDegree, 0))) else v
      else if !idIsZero || !vectorOk then v
      else if !listOk then v.(started := true)
      else View(true, v.stored[0 := Zeroes(maxDegree)], Some([]))
    case SetNeighbors(id, ns, _, ok) =>
      if !ok then v
      else v.(stored := v.stored[id := Written(op, maxDegree)], cache := if id == 0 then Some(ns) else v.cache)
    case AppendVector(id, ns, ok) =>
      if !ok then v
      else
        var list := Append(ListAt(v, maxDegree, id), ns, maxDegree);
        var v' := v.(stored := v.stored[id := Packed(list, maxDegree)]);
        if id == 0 && v.cache.Some? && !LeavesEarly(ListAt(v, maxDegree, 0), ns, maxDegree)
        then v'.(cache := Some(list)) else v'
  }

  /** Some stored value that holds `list`. */
  function Packed(list: seq<nat>, maxDegree: nat): (data: seq<nat>)
    ensures |list| <= maxDegree ==> Stored(data, maxDegree) && ListOf(data, maxDegree) == list
  {
    if |list| <= maxDegree then (list + Zeroes(maxDegree)[|list|..])[maxDegree := |list|] else []
  }

  function Run(v: View, ops: seq<Op>, maxDegree: nat): View
    requires forall op :: op in ops ==> Legal(op, maxDegree)
    decreases |ops|
  {
    if ops == [] then v
    else
      assert ops[|ops| - 1] in ops;
      Step(Run(v, ops[..|ops| - 1], maxDegree), ops[|ops| - 1], maxDegree)
  }

  lemma NoStep(v: View, op: Op, maxDegree: nat)
    requires op.AppendVector? && !op.ok
    ensures Same(v, Step(v, op, maxDegree), maxDegree)
  {
  }

  /** A step sees only what any reader sees. */
  lemma StepSame(v: View, w: View, op: Op, maxDegree: nat)
    requires Legal(op, maxDegree) && Same(v, w, maxDegree)
    ensures Same(Step(v, op, maxDegree), Step(w, op, maxDegree), maxDegree)
  {
    hide Append, LeavesEarly, ListOf, Written, Packed;
    assert ListAt(v, maxDegree, 0) == ListAt(w, maxDegree, 0);
    if op.AppendVector? { assert ListAt(v, maxDegree, op.id) == ListAt(w, maxDegree, op.id); }
    forall id: nat
      ensures ListAt(Step(v, op, maxDegree), maxDegree, id) == ListAt(Step(w, op, maxDegree), maxDegree, id)
    {
      assert ListAt(v, maxDegree, id) == ListAt(w, maxDegree, id);
    }
  }

  // ---------------------------------------------------------------- lists as a dictionary

  /** The lists as their callers see them, and whether a start point is stored. */
  datatype Lists = Lists(started: bool, of: map<nat, seq<nat>>)

  ghost function ListsOf(v: View, maxDegree: nat): Lists {
    Lists(v.started, map id | id in v.stored :: ListAt(v, maxDegree, id))
  }

  /** What an operation does to a plain dictionary of lists: a set replaces a list, an append adds the new ones in
      order up to the bound, a new start point has an empty list. */
  function ListsStep(l: Lists, op: Op, maxDegree: nat): Lists {
    match op
    case SetStartPoint(readOk, idIsZero, vectorOk, listOk) =>
      if (readOk && l.started) || !idIsZero || !vectorOk then l
      else Lists(true, if listOk then l.of[0 := []] else l.of)
    case SetNeighbors(id, ns, _, ok) => if ok then l.(of := l.of[id := ns]) else l
    case AppendVector(id, ns, ok) =>
      var list := if id in l.of then l.of[id] else [];
      if ok && |list| <= maxDegree then l.(of := l.of[id := list + Take(NewOnes(list, ns), maxDegree - |list|)]) else l
  }

  function ListsRun(l: Lists, ops: seq<Op>, maxDegree: nat): Lists
    decreases |ops|
  {
    if ops == [] then l else ListsStep(ListsRun(l, ops[..|ops| - 1], maxDegree), ops[|ops| - 1], maxDegree)
  }

  lemma StepIsListsStep(v: View, op: Op, maxDegree: nat)
    requires Legal(op, maxDegree) && Sound(v, maxDegree)
    ensures ListsOf(Step(v, op, maxDegree), maxDegree) == ListsStep(ListsOf(v, maxDegree), op, maxDegree)
  {
    match op
    case AppendVector(_, _, ok) => if ok { AppendLists(v, op, maxDegree); }
    case SetNeighbors(_, _, _, ok) => if ok { SetLists(v, op, maxDegree); }
    case SetStartPoint(_, _, _, _) => StartLists(v, op, maxDegree);
  }

  lemma SetLists(v: View, op: Op, maxDegree: nat)
    requires op.SetNeighbors? && op.ok && Legal(op, maxDegree)
    ensures ListsOf(Step(v, op, maxDegree), maxDegree) == ListsStep(ListsOf(v, maxDegree), op, maxDegree)
  {
    var v' := Step(v, op, maxDegree);
    assert ListAt(v', maxDegree, op.id) == op.ns;
    hide Written, ListOf;
    assert ListsOf(v', maxDegree).of == ListsOf(v, maxDegree).of[op.id := op.ns];
  }

  lemma StartLists(v: View, op: Op, maxDegree: nat)
    requires op.SetStartPoint?
    ensures ListsOf(Step(v, op, maxDegree), maxDegree) == ListsStep(ListsOf(v, maxDegree), op, maxDegree)
  {
    hide ListOf, Zeroes;
    var l, v' := ListsOf(v, maxDegree), Step(v, op, maxDegree);
    ZeroesAreEmpty(maxDegree);
    if !(op.readOk && v.started) && op.idIsZero && op.vectorOk && op.listOk {
      assert ListsOf(v', maxDegree).of == l.of[0 := []];
    } else {
      assert ListsOf(v', maxDegree).of == l.of;
    }
  }

  lemma ZeroesAreEmpty(maxDegree: nat)
    ensures |Zeroes(maxDegree)| == maxDegree + 1 && ListOf(Zeroes(maxDegree), maxDegree) == []
  {
  }

  /** What an append leaves to be seen. */
  lemma AppendShows(v: View, w: View, op: Op, maxDegree: nat)
    requires op.AppendVector? && Sound(v, maxDegree) && Same(w, Step(v, op, maxDegree), maxDegree)
    ensures |ListAt(v, maxDegree, op.id)| <= maxDegree
    ensures op.ok ==> var list := ListAt(v, maxDegree, op.id);
              op.id in w.stored && ListAt(w, maxDegree, op.id) == list + Take(NewOnes(list, op.ns), maxDegree - |list|)
    ensures forall id :: id != op.id || !op.ok ==> ListAt(w, maxDegree, id) == ListAt(v, maxDegree, id)
  {
    hide Append, LeavesEarly, ListOf, NewOnes;
    ListFits(v, maxDegree, op.id);
    AppendIs(ListAt(v, maxDegree, op.id), op.ns, maxDegree);
    var v' := Step(v, op, maxDegree);
    if op.ok {
      assert ListAt(v', maxDegree, op.id) == Append(ListAt(v, maxDegree, op.id), op.ns, maxDegree);
      assert op.id in w.stored.Keys;
    }
    assert forall id :: id != op.id || !op.ok ==> ListAt(v', maxDegree, id) == ListAt(v, maxDegree, id);
  }

  lemma AppendLists(v: View, op: Op, maxDegree: nat)
    requires op.AppendVector? && op.ok && Sound(v, maxDegree)
    ensures ListsOf(Step(v, op, maxDegree), maxDegree) == ListsStep(ListsOf(v, maxDegree), op, maxDegree)
  {
    hide Append, LeavesEarly, ListOf, NewOnes;
    var l, v', list := ListsOf(v, maxDegree), Step(v, op, maxDegree), ListAt(v, maxDegree, op.id);
    ListFits(v, maxDegree, op.id);
    AppendIs(list, op.ns, maxDegree);
    assert list == if op.id in l.of then l.of[op.id] else [];
    assert ListAt(v', maxDegree, op.id) == Append(list, op.ns, maxDegree);
    assert ListsOf(v', maxDegree).of == l.of[op.id := Append(list, op.ns, maxDegree)];
  }

  /** Over every run the stored lists are that dictionary: the list of a vertex is its last set, or empty, followed
      by the appends since, whatever was written to other vertices. */
  lemma {:induction false} ListsOverRuns(v: View, ops: seq<Op>, maxDegree: nat)
    requires (forall op :: op in ops ==> Legal(op, maxDegree)) && Sound(v, maxDegree) && UpToDate(v, maxDegree)
    ensures ListsOf(Run(v, ops, maxDegree), maxDegree) == ListsRun(ListsOf(v, maxDegree), ops, maxDegree)
    decreases |ops|
  {
    hide Sound, UpToDate, Step, ListsOf, ListsStep;
    if ops != [] {
      var n := |ops| - 1;
      assert ops[n] in ops;
      ListsOverRuns(v, ops[..n], maxDegree);
      RunSound(v, ops[..n], maxDegree);
      StepIsListsStep(Run(v, ops[..n], maxDegree), ops[n], maxDegree);
    }
  }

  lemma SameLists(v: View, w: View, maxDegree: nat)
    requires Same(v, w, maxDegree)
    ensures ListsOf(v, maxDegree) == ListsOf(w, maxDegree)
  {
    hide ListAt;
  }

  lemma ListsAre(v: View, maxDegree: nat, id: nat)
    ensures ListsOf(v, maxDegree).of.Keys == v.stored.Keys
    ensures id in v.stored ==> ListsOf(v, maxDegree).of[id] == ListAt(v, maxDegree, id)
  {
    hide ListAt;
  }

  // ---------------------------------------------------------------- the cache over runs

  /** The operation puts a list of vertex 0 into the cache: a start point that is adopted or created, or a set of
      vertex 0. An append only refreshes what is there. */
  predicate Caches(v: View, op: Op) {
    match op
    case SetStartPoint(readOk, idIsZero, vectorOk, listOk) =>
      listOk && if readOk && v.started then 0 in v.stored else idIsZero && vectorOk
    case SetNeighbors(id, _, _, ok) => ok && id == 0
    case AppendVector(_, _, _) => false
  }

  /** Over every run there is a cached list exactly if there was one or some operation has put one there. */
  lemma {:induction false} CachedIff(v: View, ops: seq<Op>, maxDegree: nat)
    requires forall op :: op in ops ==> Legal(op, maxDegree)
    ensures Run(v, ops, maxDegree).cache.Some? <==> v.cache.Some? || CachedSince(v, ops, maxDegree)
    decreases |ops|
  {
    hide Append, LeavesEarly, ListAt, Packed, Written;
    if ops != [] {
      assert ops[|ops| - 1] in ops;
      CachedIff(v, ops[..|ops| - 1], maxDegree);
    }
  }

  predicate CachedSince(v: View, ops: seq<Op>, maxDegree: nat)
    requires forall op :: op in ops ==> Legal(op, maxDegree)
    decreases |ops|
  {
    ops != [] && (CachedSince(v, ops[..|ops| - 1], maxDegree)
                  || Caches(Run(v, ops[..|ops| - 1], maxDegree), ops[|ops| - 1]))
  }

  /** Whether the cache lags behind after one more operation, from the operation and the list's length
      alone: an append to vertex 0 that leaves early lags if it had room; any other operation that gets to
      the list of vertex 0 catches up. */
  predicate LagsAfter(v: View, op: Op, lag: bool, maxDegree: nat) {
    match op
    case SetStartPoint(readOk, idIsZero, vectorOk, listOk) =>
      lag && !(listOk && if readOk && v.started then 0 in v.stored else idIsZero && vectorOk)
    case SetNeighbors(id, _, _, ok) => lag && !(ok && id == 0)
    case AppendVector(id, ns, ok) =>
      if !ok || id != 0 || v.cache.None? then lag
      else LeavesEarly(ListAt(v, maxDegree, 0), ns, maxDegree) && (lag || |ListAt(v, maxDegree, 0)| < maxDegree)
  }

  predicate Lags(v: View, ops: seq<Op>, maxDegree: nat)
    requires forall op :: op in ops ==> Legal(op, maxDegree)
    decreases |ops|
  {
    ops != [] && (
      assert ops[|ops| - 1] in ops;
      LagsAfter(Run(v, ops[..|ops| - 1], maxDegree), ops[|ops| - 1], Lags(v, ops[..|ops| - 1], maxDegree), maxDegree))
  }

  lemma StepSound(v: View, op: Op, maxDegree: nat, lag: bool)
    requires Legal(op, maxDegree) && Sound(v, maxDegree) && (lag <==> !UpToDate(v, maxDegree))
    ensures var v' := Step(v, op, maxDegree);
            Sound(v', maxDegree) && (LagsAfter(v, op, lag, maxDegree) <==> !UpToDate(v', maxDegree))
  {
    if op.AppendVector? && op.ok {
      AppendStepSound(v, op, maxDegree, lag);
    }
  }

  lemma AppendStepSound(v: View, op: Op, maxDegree: nat, lag: bool)
    requires op.AppendVector? && op.ok && Sound(v, maxDegree) && (lag <==> !UpToDate(v, maxDegree))
    ensures var v' := Step(v, op, maxDegree);
            Sound(v', maxDegree) && (LagsAfter(v, op, lag, maxDegree) <==> !UpToDate(v', maxDegree))
  {
    AppendStepIs(v, op, maxDegree);
    hide Append, LeavesEarly, Step, Stored, ListAt;
    var list := ListAt(v, maxDegree, op.id);
    ListFits(v, maxDegree, op.id);
    AppendExtends(list, op.ns, maxDegree);
    EarlyExitIff(list, op.ns, maxDegree);
    if op.id == 0 && v.cache.Some? {
      PrefixChain(v.cache.value, list, Append(list, op.ns, maxDegree));
    }
  }

  /** An append step, field by field. */
  lemma AppendStepIs(v: View, op: Op, maxDegree: nat)
    requires op.AppendVector? && op.ok && Sound(v, maxDegree)
    ensures var v', list := Step(v, op, maxDegree), Append(ListAt(v, maxDegree, op.id), op.ns, maxDegree);
            && v'.stored.Keys == v.stored.Keys + {op.id}
            && (forall id :: id in v'.stored ==> Stored(v'.stored[id], maxDegree))
            && ListAt(v', maxDegree, op.id) == list
            && (op.id != 0 ==> ListAt(v', maxDegree, 0) == ListAt(v, maxDegree, 0))
            && v'.cache == if op.id == 0 && v.cache.Some? && !LeavesEarly(ListAt(v, maxDegree, 0), op.ns, maxDegree)
                           then Some(list) else v.cache
  {
    hide Append, LeavesEarly, ListOf;
    ListFits(v, maxDegree, op.id);
    AppendIs(ListAt(v, maxDegree, op.id), op.ns, maxDegree);
  }

  /** A prefix that falls short of a list falls short of every extension; a prefix equal to it equals
      only the trivial one. */
  lemma PrefixChain(c: seq<nat>, list: seq<nat>, longer: seq<nat>)
    requires c <= list <= longer
    ensures c <= longer && (c == longer <==> c == list && |list| == |longer|)
  {
  }

  lemma ListFits(v: View, maxDegree: nat, id: nat)
    ensures |ListAt(v, maxDegree, id)| <= maxDegree
  {
  }

  /** Over every run from a provider that starts up to date - one without a cached list does - the cached
      list of vertex 0 is a prefix of the stored one, and the two differ if and only if the run lags. */
  lemma {:induction false} CacheOverRuns(v: View, ops: seq<Op>, maxDegree: nat)
    requires (forall op :: op in ops ==> Legal(op, maxDegree)) && Sound(v, maxDegree) && UpToDate(v, maxDegree)
    ensures var v' := Run(v, ops, maxDegree);
            && Sound(v', maxDegree)
            && (Lags(v, ops, maxDegree) <==> v'.cache.Some? && v'.cache.value != ListAt(v', maxDegree, 0))
    decreases |ops|
  {
    hide Sound, Step, LagsAfter, ListAt;
    if ops != [] {
      var n := |ops| - 1;
      assert ops[n] in ops;
      CacheOverRuns(v, ops[..n], maxDegree);
      StepSound(Run(v, ops[..n], maxDegree), ops[n], maxDegree, Lags(v, ops[..n], maxDegree));
    }
  }

  lemma RunSound(v: View, ops: seq<Op>, maxDegree: nat)
    requires (forall op :: op in ops ==> Legal(op, maxDegree)) && Sound(v, maxDegree) && UpToDate(v, maxDegree)
    ensures Sound(Run(v, ops, maxDegree), maxDegree)
  {
    hide Run, Sound, UpToDate;
    CacheOverRuns(v, ops, maxDegree);
  }

  /** The lag is real: with room for one neighbour, appending two leaves the cache behind - and
      appending none brings it up to date again. */
  lemma CacheCanLag()
    ensures var v := View(true, map[0 := [0, 0]], Some([]));
            && Sound(v, 1)
            && var lagging := Step(v, AppendVector(0, [5, 6], true), 1);
               && lagging.cache == Some([]) && ListAt(lagging, 1, 0) == [5]
               && Step(lagging, AppendVector(0, [], true), 1).cache == Some([5])
  {
    var v := View(true, map[0 := [0, 0]], Some([]));
    assert ListAt(v, 1, 0) == [];
    assert Append([5], [6], 1) == [5] && [5, 6][1..] == [6] && [] + [5] == [5];
    assert Append([], [5, 6], 1) == [5];
    assert LeavesEarly([], [5, 6], 1);
    var lagging := Step(v, AppendVector(0, [5, 6], true), 1);
    assert ListAt(lagging, 1, 0) == [5];
    assert Append([5], [], 1) == [5] && !LeavesEarly([5], [], 1);
  }

  /** The operation writes the list of vertex 0. */
  predicate WritesStart(op: Op) { (op.SetNeighbors? || op.AppendVector?) && op.id == 0 && op.ok }

  /** A start vector whose list was not written is adopted by a later attempt if and only if something else
      has written the list in between. */
  lemma {:induction false} StartAdoptedIff(v: View, ops: seq<Op>, maxDegree: nat)
    requires v.started && 0 !in v.stored && v.cache == None
    requires forall op :: op in ops ==> Legal(op, maxDegree) && (op.SetStartPoint? ==> op.readOk)
    ensures var v' := Run(v, ops, maxDegree);
            && v'.started && (0 in v'.stored <==> exists op :: op in ops && WritesStart(op))
            && (Step(v', SetStartPoint(true, true, true, true), maxDegree).cache.Some? <==>
                  exists op :: op in ops && WritesStart(op))
    decreases |ops|
  {
    hide Append, LeavesEarly, ListAt, Packed, Written;
    if ops != [] {
      var n := |ops| - 1;
      StartAdoptedIff(v, ops[..n], maxDegree);
      assert ops == ops[..n] + [ops[n]];
      assert ops[n] in ops;
      CachedIsStored(v, ops[..n], maxDegree);
    }
    CachedIsStored(v, ops, maxDegree);
  }

  lemma {:induction false} CachedIsStored(v: View, ops: seq<Op>, maxDegree: nat)
    requires v.started && (v.cache.Some? ==> 0 in v.stored)
    requires forall op :: op in ops ==> Legal(op, maxDegree) && (op.SetStartPoint? ==> op.readOk)
    ensures var v' := Run(v, ops, maxDegree); v'.started && (v'.cache.Some? ==> 0 in v'.stored)
    decreases |ops|
  {
    hide Append, LeavesEarly, ListAt, Packed, Written;
    if ops != [] {
      assert ops[|ops| - 1] in ops;
      CachedIsStored(v, ops[..|ops| - 1], maxDegree);
    }
  }
}
