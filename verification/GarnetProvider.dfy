/** External and internal IDs of the provider: every insert takes a fresh internal ID from the free space
    map and records it in two maps, every delete gives it back and erases both entries. */
module GarnetProvider {
  import opened Collections
  import opened FsmLayout
  import opened FsmSpec
  import opened FsmRuns
  import opened FreeSpaceMapModel

  type Bytes = seq<bv8>
  type ExtId = Bytes

  datatype ProviderError = Fsm(error: FsmError) | GarnetReadFailed | GarnetWriteFailed | GarnetDeleteFailed | StartPoint

  datatype Outcome<T> = Done(value: T) | Failed(error: ProviderError)

  /** The free space map and the provider's own terms in the store. Of the neighbour lists it matters here
      only whether vertex 0 has one; `NeighborLists` has the rest. */
  datatype Terms = Terms(fsm: FsmSpec.State, intMap: map<ExtId, nat>, extMap: map<nat, ExtId>,
                         vectors: map<nat, Bytes>, attributes: map<ExtId, Bytes>, startList: bool)

  // ---------------------------------------------------------------- operations on values, working store

  ghost function Inserted(s: Terms, e: ExtId, v: Bytes): (Terms, Outcome<nat>)
    requires Valid(s.fsm)
  {
    var (f, r) := NextId(s.fsm);
    match r
    case Err(x) => (s.(fsm := f), Failed(Fsm(x)))
    case Ok(id) =>
      (s.(fsm := f, vectors := s.vectors[id := v], extMap := s.extMap[id := e], intMap := s.intMap[e := id]), Done(id))
  }

  ghost function Deleted(s: Terms, e: ExtId): (Terms, Outcome<()>)
    requires Valid(s.fsm)
  {
    if e !in s.intMap then (s, Failed(GarnetReadFailed))
    else
      var id := s.intMap[e];
      var (f, r) := Mark(s.fsm, id, false);
      match r
      case Err(x) => (s, Failed(Fsm(x)))
      case Ok(_) =>
        (s.(fsm := f, extMap := s.extMap - {id}, intMap := s.intMap - {e}, attributes := s.attributes - {e},
            vectors := s.vectors - {id}), Done(()))
  }

  /** `maybe_set_start_point`: adopt the stored start point and its list, or claim internal ID 0 for a new one. */
  ghost function SetStart(s: Terms, point: Bytes): (Terms, Outcome<()>)
    requires Valid(s.fsm)
  {
    if 0 in s.vectors then (s, if s.startList then Done(()) else Failed(GarnetReadFailed))
    else
      NextIdOutcome(s.fsm);
      var (f, r) := NextId(s.fsm);
      match r
      case Err(x) => (s.(fsm := f), Failed(Fsm(x)))
      case Ok(id) =>
        if id == 0 then (s.(fsm := f, vectors := s.vectors[0 := point], startList := true), Done(()))
        else
          var (g, m) := Mark(f, id, false);
          (s.(fsm := g), if m.Err? then Failed(Fsm(m.error)) else Failed(StartPoint))
  }

  function ToInternal(s: Terms, e: ExtId): Option<nat> {
    if e in s.intMap then Some(s.intMap[e]) else None
  }

  function ToExternal(s: Terms, id: nat): Option<ExtId> {
    if id in s.extMap then Some(s.extMap[id]) else None
  }

  /** `vector_id_exists`: mapped, and the free space map answers that the ID is in use. */
  predicate Exists(s: Terms, e: ExtId) {
    && e in s.intMap
    && s.intMap[e] < s.fsm.nextId && BlockOf(s.intMap[e]) <= s.fsm.maxBlock
    && Used(s.fsm.blocks, s.intMap[e])
  }

  // ---------------------------------------------------------------- the maps

  /** Every mapped external ID that is not excepted leads to a used, nonzero internal ID that leads back to
      it and has a vector. Vertex 0, the start point, is used and belongs to no external ID. */
  ghost predicate LinkedExcept(s: Terms, except: set<ExtId>) {
    && Valid(s.fsm) && Used(s.fsm.blocks, 0)
    && forall e :: e in s.intMap && e !in except ==>
         var id := s.intMap[e];
         id != 0 && Used(s.fsm.blocks, id) && id in s.extMap && s.extMap[id] == e && id in s.vectors
  }

  ghost predicate Linked(s: Terms) { LinkedExcept(s, {}) }

  /** Distinct external IDs have distinct internal IDs, and both lookups invert each other. */
  lemma LinkedRoundTrip(s: Terms, e: ExtId, e': ExtId)
    requires Linked(s) && e in s.intMap
    ensures ToExternal(s, ToInternal(s, e).value) == Some(e)
    ensures e' in s.intMap && s.intMap[e] == s.intMap[e'] ==> e == e'
  {
  }

  /** An insert changes the internal ID of the inserted external ID and of no other. */
  lemma SetElementLinked(s: Terms, e: ExtId, v: Bytes)
    requires Linked(s)
    ensures var (s', r) := Inserted(s, e, v);
            && Linked(s')
            && (r.Done? ==> !Used(s.fsm.blocks, r.value) && s'.intMap == s.intMap[e := r.value]
                            && AddsOne(s.fsm.blocks, s'.fsm.blocks, r.value))
            && (r.Failed? ==> s'.intMap == s.intMap && SameUsed(s.fsm.blocks, s'.fsm.blocks))
  {
    LinkedIsUsed(s, e);
    hide NextId, Valid, LinkedExcept, Used;
    NextIdOutcome(s.fsm);
    var (f, r) := NextId(s.fsm);
    if r.Ok? {
      AddedLinked(s, Inserted(s, e, v).0, e, r.value);
    } else {
      SameUsedLinked(s, s.(fsm := f));
    }
  }

  /** Why the maps are invariant in one direction only: inserting a mapped external ID again orphans
      its old internal ID, which stays used and still names the external ID. */
  lemma ReinsertOrphans(s: Terms, e: ExtId, v: Bytes)
    requires Linked(s) && e in s.intMap
    ensures var (s', r) := Inserted(s, e, v);
            r.Done? ==> var was := s.intMap[e];
              s'.intMap[e] != was && Used(s'.fsm.blocks, was) && ToExternal(s', was) == Some(e)
  {
    NextIdOutcome(s.fsm);
    hide NextId, Valid;
    var (f, r) := NextId(s.fsm);
    if r.Ok? {
      assert Used(s.fsm.blocks, s.intMap[e]);
      assert Used(f.blocks, s.intMap[e]);
    }
  }

  /** A delete of a mapped ID succeeds, frees exactly its internal ID and unmaps exactly it. */
  lemma DeleteLinked(s: Terms, e: ExtId)
    requires Linked(s) && Tight(s.fsm)
    ensures var (s', r) := Deleted(s, e);
            && Linked(s') && s'.intMap == s.intMap - {e}
            && (r.Done? <==> e in s.intMap)
            && (r.Done? ==> !Used(s'.fsm.blocks, s.intMap[e]))
            && (r.Done? ==> s.intMap[e] !in s'.extMap && s.intMap[e] !in s'.vectors && e !in s'.attributes)
            && (r.Failed? ==> s' == s)
  {
    LinkedIsUsed(s, e);
    if e in s.intMap {
      var id := s.intMap[e];
      UsedIsStored(s.fsm.blocks, s.fsm.maxBlock + 1, id);
      MarkOutcome(s.fsm, id, false);
      assert Mark(s.fsm, id, false).1.Ok?;
      hide Mark, Valid, Used, LinkedExcept;
      ErasedLinked(s, Deleted(s, e).0, e);
    }
  }

  /** In a linked state with a tight counter, an external ID exists if and only if it is mapped. */
  lemma ExistsIffMapped(s: Terms, e: ExtId)
    requires Linked(s) && Tight(s.fsm)
    ensures Exists(s, e) <==> e in s.intMap
  {
    if e in s.intMap {
      UsedIsStored(s.fsm.blocks, s.fsm.maxBlock + 1, s.intMap[e]);
    }
  }

  /** Why a delete must not lose the erasure of its external-to-internal entry: the next insert takes the
      freed ID, and the deleted external ID then exists again, as an alias of the inserted one. */
  lemma LostErasureAliases(s: Terms, e: ExtId, other: ExtId, v: Bytes)
    requires Linked(s) && Tight(s.fsm) && s.fsm.queue == [] && e in s.intMap && other != e
    ensures var s1 := Deleted(s, e).0.(intMap := s.intMap);
            && Valid(s1.fsm)
            && var (s2, r) := Inserted(s1, other, v);
               && r == Done(s.intMap[e]) && s2.intMap[e] == s2.intMap[other]
               && Exists(s2, e) && ToExternal(s2, s2.intMap[e]) == Some(other)
  {
    var id := s.intMap[e];
    UsedIsStored(s.fsm.blocks, s.fsm.maxBlock + 1, id);
    ReleaseRevives(s.fsm, id);
    var f := Mark(s.fsm, id, false).0;
    MarkOutcome(s.fsm, id, false);
    NextIdOutcome(f);
    assert f == FsmRuns.Step(s.fsm, Release(id));
    hide NextId, Valid, Mark, Used;
  }

  // ---------------------------------------------------------------- runs

  datatype Op =
    | Insert(e: ExtId, v: Bytes)
    | Remove(e: ExtId)
    | SetAttributes(e: ExtId, data: Bytes)
    | SetStartPoint(point: Bytes)
    | Reopen

  ghost function Step(s: Terms, op: Op): Terms
    requires Valid(s.fsm)
  {
    match op
    case Insert(e, v) => Inserted(s, e, v).0
    case Remove(e) => Deleted(s, e).0
    case SetAttributes(e, data) => s.(attributes := s.attributes[e := data])
    case SetStartPoint(point) => SetStart(s, point).0
    case Reopen => s.(fsm := Reopened(s.fsm.blocks))
  }

  lemma StepLinked(s: Terms, op: Op)
    requires Linked(s) && Tight(s.fsm) && s.fsm.nextId + 1 < U32_LIMIT
    ensures var s' := Step(s, op); Linked(s') && Tight(s'.fsm) && s'.fsm.nextId <= s.fsm.nextId + 1
  {
    match op
    case Insert(e, v) =>
      SetElementLinked(s, e, v);
      TightStep(s.fsm, Next);
      hide Linked, Tight, NextId;
    case Remove(e) =>
      DeleteLinked(s, e);
      if e in s.intMap { TightStep(s.fsm, Release(s.intMap[e])); }
      hide Linked, Tight, Mark;
    case SetAttributes(e, data) =>
      hide Valid, Used, Tight;
    case SetStartPoint(point) =>
      SetStartLinked(s, point);
      hide Linked, Tight, SetStart;
    case Reopen =>
      ReopenLinked(s);
      TightStep(s.fsm, Restart);
      hide Linked, Tight, Reopened;
  }

  /** With vertex 0 in use, an attempt to set the start point adopts the stored one or fails, takes nothing
      and keeps the maps linked. */
  lemma SetStartLinked(s: Terms, point: Bytes)
    requires Linked(s) && Tight(s.fsm) && s.fsm.nextId + 1 < U32_LIMIT
    ensures var (s', r) := SetStart(s, point);
            && Linked(s') && Tight(s'.fsm) && s'.fsm.nextId <= s.fsm.nextId + 1
            && s'.intMap == s.intMap && s'.vectors == s.vectors && s'.startList == s.startList
            && (r.Done? <==> 0 in s.vectors && s.startList)
  {
    if 0 !in s.vectors {
      LinkedIsUsed(s, []);
      assert Used(s.fsm.blocks, 0);
      hide NextId, Valid, Mark, LinkedExcept, Used;
      NextIdOutcome(s.fsm);
      TightStep(s.fsm, Next);
      var (f, r) := NextId(s.fsm);
      var mid := s.(fsm := f);
      if r.Err? {
        SameUsedLinked(s, mid);
      } else {
        assert !Used(s.fsm.blocks, r.value);
        TakenAndGivenBack(s, f, r.value);
      }
    }
  }

  lemma TakenAndGivenBack(s: Terms, f: FsmSpec.State, id: nat)
    requires Linked(s) && Valid(f) && AddsOne(s.fsm.blocks, f.blocks, id) && Tight(f)
    ensures var g := Mark(f, id, false).0;
            Linked(s.(fsm := g)) && Tight(g) && g.nextId == f.nextId
  {
    var g := Mark(f, id, false).0;
    hide Valid, Mark, LinkedExcept, Used;
    MarkOutcome(f, id, false);
    AddedLinked(s, s.(fsm := f), [], id);
    GivenBackLinked(s, s.(fsm := f), s.(fsm := g), id);
  }

  lemma ReopenLinked(s: Terms)
    requires Linked(s)
    ensures BlockKey(0) in s.fsm.blocks && Linked(s.(fsm := Reopened(s.fsm.blocks)))
  {
    ReopenedOutcome(s.fsm);
    hide Reopened, Used, Valid;
  }

  /** The states of a run. */
  ghost function Run(s: Terms, ops: seq<Op>): Terms
    requires Linked(s) && Tight(s.fsm) && s.fsm.nextId + |ops| < U32_LIMIT
    ensures Linked(Run(s, ops)) && Tight(Run(s, ops).fsm) && Run(s, ops).fsm.nextId <= s.fsm.nextId + |ops|
    decreases |ops|
  {
    if ops == [] then s
    else
      var before := Run(s, ops[..|ops| - 1]);
      StepLinked(before, ops[|ops| - 1]);
      Step(before, ops[|ops| - 1])
  }

  /** The index as its callers see it: a vector per external ID, attributes, and the start point. */
  datatype Dict = Dict(vectors: map<ExtId, Bytes>, attributes: map<ExtId, Bytes>, start: Option<Bytes>)

  /** Every external ID with the vector under its internal ID. */
  function Join(im: map<ExtId, nat>, vs: map<nat, Bytes>): map<ExtId, Bytes>
    requires forall e :: e in im ==> im[e] in vs
  {
    map e | e in im :: vs[im[e]]
  }

  lemma JoinAdds(im: map<ExtId, nat>, vs: map<nat, Bytes>, e: ExtId, id: nat, v: Bytes)
    requires forall x :: x in im ==> im[x] in vs && im[x] != id
    ensures Join(im, vs[id := v]) == Join(im, vs)
    ensures Join(im[e := id], vs[id := v]) == Join(im, vs)[e := v]
  {
  }

  lemma JoinErases(im: map<ExtId, nat>, vs: map<nat, Bytes>, e: ExtId)
    requires e in im && forall x :: x in im ==> im[x] in vs && (x != e ==> im[x] != im[e])
    ensures Join(im - {e}, vs - {im[e]}) == Join(im, vs) - {e} == Join(im - {e}, vs)
  {
  }

  ghost function Contents(s: Terms): map<ExtId, Bytes>
    requires Linked(s)
  {
    LinkedVectors(s);
    Join(s.intMap, s.vectors)
  }

  /** What `Linked` says about the maps alone. */
  lemma LinkedVectors(s: Terms)
    requires Linked(s)
    ensures Used(s.fsm.blocks, 0)
    ensures forall e :: e in s.intMap ==> s.intMap[e] in s.vectors && s.intMap[e] != 0 && Used(s.fsm.blocks, s.intMap[e])
    ensures forall x, y :: x in s.intMap && y in s.intMap && x != y ==> s.intMap[x] != s.intMap[y]
  {
    hide Valid, Used;
  }

  ghost function DictOf(s: Terms): Dict
    requires Linked(s)
  {
    Dict(Contents(s), s.attributes, if 0 in s.vectors then Some(s.vectors[0]) else None)
  }

  /** What an operation does to a plain dictionary; `ok` says whether an insert got an internal ID. */
  function DictStep(d: Dict, op: Op, ok: bool): Dict {
    match op
    case Insert(e, v) => if ok then d.(vectors := d.vectors[e := v]) else d
    case Remove(e) => if e in d.vectors then d.(vectors := d.vectors - {e}, attributes := d.attributes - {e}) else d
    case SetAttributes(e, data) => d.(attributes := d.attributes[e := data])
    case _ => d
  }

  ghost predicate Succeeds(s: Terms, op: Op)
    requires Valid(s.fsm)
  {
    op.Insert? ==> Inserted(s, op.e, op.v).1.Done?
  }

  ghost function DictRun(s: Terms, ops: seq<Op>): Dict
    requires Linked(s) && Tight(s.fsm) && s.fsm.nextId + |ops| < U32_LIMIT
    decreases |ops|
  {
    if ops == [] then DictOf(s)
    else
      var n := |ops| - 1;
      DictStep(DictRun(s, ops[..n]), ops[n], Succeeds(Run(s, ops[..n]), ops[n]))
  }

  /** The index is that dictionary, over every run of inserts, deletes, attribute writes, start-point attempts and
      reopenings: a lookup yields the vector of the last insert that was not deleted since, and nothing that
      happens to one external ID shows in another. */
  lemma {:induction false} IsDictionary(s: Terms, ops: seq<Op>)
    requires Linked(s) && Tight(s.fsm) && s.fsm.nextId + |ops| < U32_LIMIT
    ensures DictOf(Run(s, ops)) == DictRun(s, ops)
    decreases |ops|
  {
    hide Linked, Tight, DictOf, DictStep, Step, Succeeds;
    if ops != [] {
      var n := |ops| - 1;
      IsDictionary(s, ops[..n]);
      StepIsDictStep(Run(s, ops[..n]), ops[n]);
    }
  }

  lemma StepIsDictStep(s: Terms, op: Op)
    requires Linked(s) && Tight(s.fsm) && s.fsm.nextId + 1 < U32_LIMIT
    ensures Linked(Step(s, op)) && DictOf(Step(s, op)) == DictStep(DictOf(s), op, Succeeds(s, op))
  {
    StepLinked(s, op);
    match op
    case Insert(e, v) => InsertContents(s, e, v);
    case Remove(e) => RemoveContents(s, e);
    case SetStartPoint(point) =>
      SetStartLinked(s, point);
      SameContents(s, SetStart(s, point).0);
      hide SetStart, LinkedExcept;
    case Reopen =>
      SameContents(s, s.(fsm := Reopened(s.fsm.blocks)));
      hide Reopened, LinkedExcept;
    case SetAttributes(e, data) =>
      SameContents(s, s.(attributes := s.attributes[e := data]));
      hide LinkedExcept;
  }

  lemma SameContents(s: Terms, s': Terms)
    requires Linked(s) && Linked(s') && s'.intMap == s.intMap && s'.vectors == s.vectors
    ensures Contents(s') == Contents(s)
  {
    hide LinkedExcept, Join;
  }

  /** An insert stores the vector under the external ID and leaves every other one alone. */
  lemma InsertContents(s: Terms, e: ExtId, v: Bytes)
    requires Linked(s)
    ensures var (s', r) := Inserted(s, e, v);
            && Linked(s')
            && Contents(s') == (if r.Done? then Contents(s)[e := v] else Contents(s))
            && s'.attributes == s.attributes && (0 in s'.vectors <==> 0 in s.vectors)
            && (0 in s.vectors ==> s'.vectors[0] == s.vectors[0])
  {
    SetElementLinked(s, e, v);
    hide NextId, Valid, Used, LinkedExcept, Contents;
    var (f, r) := NextId(s.fsm);
    if r.Ok? {
      AddedContents(s, Inserted(s, e, v).0, e, v, r.value);
    } else {
      SameContents(s, s.(fsm := f));
    }
  }

  /** A vector written under an unused internal ID shows under the external ID that is mapped to it and
      under no other. */
  lemma AddedContents(s: Terms, s': Terms, e: ExtId, v: Bytes, id: nat)
    requires Linked(s) && Linked(s') && !Used(s.fsm.blocks, id)
    requires s'.vectors == s.vectors || s'.vectors == s.vectors[id := v]
    requires s'.intMap == s.intMap || (s'.intMap == s.intMap[e := id] && s'.vectors == s.vectors[id := v])
    ensures Contents(s') == if s'.intMap == s.intMap then Contents(s) else Contents(s)[e := v]
    ensures id != 0 && (e in s.intMap ==> s.intMap[e] != id)
  {
    hide LinkedExcept, Used, Join;
    LinkedVectors(s);
    LinkedVectors(s');
    JoinAdds(s.intMap, s.vectors, e, id, v);
  }

  lemma RemoveContents(s: Terms, e: ExtId)
    requires Linked(s) && Tight(s.fsm)
    ensures var (s', r) := Deleted(s, e);
            && Linked(s') && DictOf(s') == DictStep(DictOf(s), Remove(e), true)
  {
    DeleteLinked(s, e);
    ContentsAre(s, e);
    var (s', r) := Deleted(s, e);
    if e in s.intMap {
      assert s'.vectors == s.vectors - {s.intMap[e]} && s'.attributes == s.attributes - {e};
      hide Deleted, Mark, Valid, Used, LinkedExcept, Contents;
      ErasedContents(s, s', e);
    } else {
      hide Deleted, Mark, Valid, Used, LinkedExcept, Contents;
    }
  }

  /** Erasing the entries of one external ID shows in no other. */
  lemma ErasedContents(s: Terms, s': Terms, e: ExtId)
    requires Linked(s) && Linked(s') && e in s.intMap && s'.intMap == s.intMap - {e}
    requires s'.vectors == s.vectors || s'.vectors == s.vectors - {s.intMap[e]}
    ensures Contents(s') == Contents(s) - {e} && s.intMap[e] != 0
  {
    hide LinkedExcept, Used, Join;
    LinkedVectors(s);
    LinkedVectors(s');
    JoinErases(s.intMap, s.vectors, e);
  }

  /** The external IDs inserted and not deleted since. */
  ghost function Live(s: Terms, ops: seq<Op>): set<ExtId>
    requires Linked(s) && Tight(s.fsm) && s.fsm.nextId + |ops| < U32_LIMIT
  {
    DictRun(s, ops).vectors.Keys
  }

  /** Over every such run: an external ID exists exactly if it was inserted and not deleted since, its internal
      ID leads back to it and holds the vector of its last insert, and no two share an internal ID. */
  lemma ExistsExactlyLive(s: Terms, ops: seq<Op>, e: ExtId, e': ExtId)
    requires Linked(s) && Tight(s.fsm) && s.fsm.nextId + |ops| < U32_LIMIT
    ensures var s' := Run(s, ops);
            && s'.intMap.Keys == Live(s, ops)
            && (Exists(s', e) <==> e in Live(s, ops))
            && (e in Live(s, ops) ==> ToExternal(s', ToInternal(s', e).value) == Some(e) && s'.intMap[e] != 0
                                      && s'.intMap[e] in s'.vectors
                                      && s'.vectors[s'.intMap[e]] == DictRun(s, ops).vectors[e])
            && (e in Live(s, ops) && e' in Live(s, ops) && s'.intMap[e] == s'.intMap[e'] ==> e == e')
  {
    var s' := Run(s, ops);
    IsDictionary(s, ops);
    ContentsAre(s', e);
    hide LinkedExcept, Tight, Used, DictRun, Contents;
    ExistsIffMapped(s', e);
    if e in s'.intMap {
      LinkedRoundTrip(s', e, e');
    }
  }

  lemma ContentsAre(s: Terms, e: ExtId)
    requires Linked(s)
    ensures Contents(s).Keys == s.intMap.Keys
    ensures e in s.intMap ==> s.intMap[e] != 0 && s.intMap[e] in s.vectors && Contents(s)[e] == s.vectors[s.intMap[e]]
  {
    hide Valid, Used;
  }

  // ---------------------------------------------------------------- the start point

  const Empty: Terms := Terms(Fresh, map[], map[], map[], map[], false)

  /** On a new index the first start point gets internal ID 0 and sets up the invariant of all runs. */
  lemma FreshStart(point: Bytes)
    ensures Valid(Empty.fsm)
    ensures var (s, r) := SetStart(Empty, point);
            r.Done? && Linked(s) && Tight(s.fsm) && s.fsm.nextId == 1 && s.intMap == map[] && s.vectors == map[0 := point]
  {
    FreshIsValid();
    NextIdOutcome(Fresh);
    assert Candidate(Fresh).None?;
  }

  /** Once a start point is stored, setting it again changes nothing. */
  lemma StartIsSetOnce(s: Terms, point: Bytes, again: Bytes)
    requires Valid(s.fsm) && SetStart(s, point).1.Done?
    ensures Valid(SetStart(s, point).0.fsm) && SetStart(SetStart(s, point).0, again) == (SetStart(s, point).0, Done(()))
  {
    NextIdOutcome(s.fsm);
    hide NextId, Valid, Mark;
  }

  // ---------------------------------------------------------------- the object

  class Provider {
    const fsm: FreeSpaceMap
    var intMap: map<ExtId, nat>
    var extMap: map<nat, ExtId>
    var vectors: map<nat, Bytes>
    var attributes: map<ExtId, Bytes>
    var startList: bool

    constructor (fsm: FreeSpaceMap)
      requires fsm.Inv()
      ensures this.fsm == fsm && S() == Terms(fsm.S(), map[], map[], map[], map[], false)
    {
      this.fsm := fsm;
      intMap, extMap, vectors, attributes, startList := map[], map[], map[], map[], false;
    }

    ghost function S(): Terms
      reads this, fsm, fsm.store
    {
      Terms(fsm.S(), intMap, extMap, vectors, attributes, startList)
    }

    /** Adopt a stored start point and its list, or claim internal ID 0 for a new one; any other ID is given
        back. The contents and the cache of the list belong to `NeighborLists`. */
    method MaybeSetStartPoint(point: Bytes) returns (r: Outcome<()>)
      requires fsm.Inv()
      modifies this, fsm, fsm.store
      ensures fsm.Inv() && intMap == old(intMap) && extMap == old(extMap)
      ensures r.Done? ==> 0 in vectors && startList
      ensures r.Failed? ==> startList == old(startList) && (vectors == old(vectors) || vectors == old(vectors)[0 := point])
      ensures r.Done? && 0 !in old(vectors) ==> vectors == old(vectors)[0 := point]
                                                && AddsOne(old(fsm.store.blocks), fsm.store.blocks, 0)
      ensures fsm.store.reliable ==> (S(), r) == SetStart(old(S()), point)
    {
      hide Valid, Used, NextId, Mark;
      var readOk := fsm.store.Attempt();
      if readOk && 0 in vectors {
        var listOk := fsm.store.Attempt();
        if !listOk || !startList { return Failed(GarnetReadFailed); }
        return Done(());
      }
      var a := fsm.NextId();
      if a.Err? { return Failed(Fsm(a.error)); }
      if a.value != 0 {
        var m := fsm.MarkFree(a.value);
        if m.Err? { return Failed(Fsm(m.error)); }
        return Failed(StartPoint);
      }
      var ok := fsm.store.Attempt();
      if !ok { return Failed(GarnetWriteFailed); }
      vectors := vectors[0 := point];
      ok := fsm.store.Attempt();
      if !ok { return Failed(GarnetWriteFailed); }
      startList := true;
      r := Done(());
    }

    /** Vector, internal-to-external entry, external-to-internal entry: stop at the first failed write. */
    method WriteEntries(e: ExtId, v: Bytes, id: nat) returns (ok: bool)
      modifies this`vectors, this`extMap, this`intMap
      ensures ok ==> vectors == old(vectors)[id := v] && extMap == old(extMap)[id := e] && intMap == old(intMap)[e := id]
      ensures !ok ==> intMap == old(intMap)
      ensures vectors == old(vectors) || vectors == old(vectors)[id := v]
      ensures extMap == old(extMap) || extMap == old(extMap)[id := e]
      ensures fsm.store.reliable ==> ok
    {
      ok := fsm.store.Attempt();
      if !ok { return; }
      vectors := vectors[id := v];
      ok := fsm.store.Attempt();
      if !ok { return; }
      extMap := extMap[id := e];
      ok := fsm.store.Attempt();
      if !ok { return; }
      intMap := intMap[e := id];
    }

    /** Free a just-taken ID that no external ID was mapped to. */
    method GiveBack(id: nat, ghost before: Terms) returns (m: Result<bool>)
      requires Linked(before) && Linked(S()) && !Used(before.fsm.blocks, id) && intMap == before.intMap
      modifies fsm, fsm.store
      ensures Linked(S()) && S() == old(S()).(fsm := fsm.S())
    {
      hide Valid, Used, Mark, LinkedExcept;
      ghost var mid := S();
      LinkedIsUsed(mid, []);
      m := fsm.MarkFree(id);
      MarkOutcome(mid.fsm, id, false);
      GivenBackLinked(before, mid, S(), id);
    }

    /** Any of the three writes may fail; the new internal ID is then given back. Whatever the store
        does, the maps stay linked, and a failed insert leaves the external-to-internal map alone. */
    method SetElement(e: ExtId, v: Bytes) returns (r: Outcome<nat>)
      requires Linked(S())
      modifies this, fsm, fsm.store
      ensures Linked(S())
      ensures r.Done? ==> intMap == old(intMap)[e := r.value] && !Used(old(fsm.store.blocks), r.value)
      ensures r.Failed? ==> intMap == old(intMap)
      ensures r.Done? ==> Contents(S()) == old(Contents(S()))[e := v] && r.value in vectors && vectors[r.value] == v
      ensures r.Failed? ==> Contents(S()) == old(Contents(S()))
      ensures fsm.store.reliable ==> (S(), r) == Inserted(old(S()), e, v)
    {
      hide Valid, Used, NextId, Mark, LinkedExcept, Contents;
      ghost var before := S();
      LinkedIsUsed(before, e);
      var a := fsm.NextId();
      if a.Err? {
        SameUsedLinked(before, S());
        SameContents(before, S());
        return Failed(Fsm(a.error));
      }
      var id := a.value;
      var w := FillEntries(e, v, id, before);
      if w.Failed? { return Failed(w.error); }
      r := Done(id);
    }

    /** Write the entries of a just-taken ID, or give it back. */
    method FillEntries(e: ExtId, v: Bytes, id: nat, ghost before: Terms) returns (r: Outcome<()>)
      requires Linked(before) && Valid(fsm.S()) && AddsOne(before.fsm.blocks, fsm.store.blocks, id)
      requires S() == before.(fsm := fsm.S())
      modifies this, fsm, fsm.store
      ensures Linked(S())
      ensures r.Done? ==> intMap == before.intMap[e := id] && Contents(S()) == Contents(before)[e := v]
                          && id in vectors && vectors[id] == v
      ensures r.Failed? ==> intMap == before.intMap && Contents(S()) == Contents(before)
      ensures fsm.store.reliable ==>
                r.Done? && S() == old(S()).(vectors := before.vectors[id := v], extMap := before.extMap[id := e],
                                            intMap := before.intMap[e := id])
    {
      hide Valid, Used, Mark, LinkedExcept, Contents;
      var ok := WriteEntries(e, v, id);
      AddedLinked(before, S(), e, id);
      AddedContents(before, S(), e, v, id);
      if !ok {
        ghost var mid := S();
        var m := GiveBack(id, before);
        SameContents(mid, S());
        if m.Err? { return Failed(Fsm(m.error)); }
        return Failed(GarnetWriteFailed);
      }
      r := Done(());
    }

    /** The ID is given back first, then the four entries are erased, each of which may fail. Whatever the
        store does, the free space map stays valid and every other external ID stays linked; the deleted one
        stays behind unlinked exactly if it is still mapped to an ID that has been given back. */
    method Delete(e: ExtId) returns (r: Outcome<()>)
      requires Linked(S())
      modifies this, fsm, fsm.store
      ensures fsm.store.reliable ==> (S(), r) == Deleted(old(S()), e)
      ensures r.Done? ==> e in old(intMap) && e !in intMap && e !in attributes
                          && old(intMap[e]) !in extMap && old(intMap[e]) !in vectors
                          && Linked(S()) && Contents(S()) == old(Contents(S())) - {e}
      ensures fsm.Inv() && LinkedExcept(S(), {e}) && (intMap == old(intMap) || intMap == old(intMap) - {e})
      ensures Linked(S()) <==> (e in intMap ==> Used(fsm.store.blocks, intMap[e]))
    {
      ghost var before := S();
      assert Linked(before) ==> LinkedExcept(before, {e});
      hide Used, Mark, Valid, LinkedExcept, Contents;
      LinkedIsUsed(before, e);
      var found := fsm.store.Attempt();
      if !found || e !in intMap {
        return Failed(GarnetReadFailed);
      }
      var id := intMap[e];
      var m := fsm.MarkFree(id);
      if m.Err? {
        return Failed(Fsm(m.error));
      }
      MarkOutcome(before.fsm, id, false);
      var ok := EraseEntries(e, id);
      ErasedLinked(before, S(), e);
      if !ok {
        return Failed(GarnetDeleteFailed);
      }
      ErasedContents(before, S(), e);
      r := Done(());
    }

    /** Both map entries, the attributes and the vector; every erasure is tried, whether or not one failed. */
    method EraseEntries(e: ExtId, id: nat) returns (ok: bool)
      modifies this`extMap, this`intMap, this`attributes, this`vectors
      ensures extMap == old(extMap) || extMap == old(extMap) - {id}
      ensures intMap == old(intMap) || intMap == old(intMap) - {e}
      ensures attributes == old(attributes) || attributes == old(attributes) - {e}
      ensures vectors == old(vectors) || vectors == old(vectors) - {id}
      ensures ok ==> extMap == old(extMap) - {id} && intMap == old(intMap) - {e}
                     && attributes == old(attributes) - {e} && vectors == old(vectors) - {id}
      ensures fsm.store.reliable ==> ok
    {
      var ok1 := fsm.store.Attempt();
      if ok1 { extMap := extMap - {id}; }
      var ok2 := fsm.store.Attempt();
      if ok2 { intMap := intMap - {e}; }
      var ok3 := fsm.store.Attempt();
      if ok3 { attributes := attributes - {e}; }
      var ok4 := fsm.store.Attempt();
      if ok4 { vectors := vectors - {id}; }
      ok := ok1 && ok2 && ok3 && ok4;
    }

    method SetAttributes(e: ExtId, data: Bytes) returns (r: Outcome<()>)
      modifies this`attributes
      ensures attributes == if r.Done? then old(attributes)[e := data] else old(attributes)
      ensures r.Failed? ==> r.error == GarnetWriteFailed && !fsm.store.reliable
    {
      var ok := fsm.store.Attempt();
      if !ok { return Failed(GarnetWriteFailed); }
      attributes := attributes[e := data];
      r := Done(());
    }

    method VectorIdExists(e: ExtId) returns (exists_: bool)
      requires Linked(S())
      ensures exists_ ==> Exists(S(), e)
      ensures fsm.store.reliable ==> exists_ == Exists(S(), e)
    {
      var found := fsm.store.Attempt();
      if !found || e !in intMap {
        return false;
      }
      var f := fsm.IsFree(intMap[e]);
      exists_ := f.Ok? && !f.value;
    }
  }

  lemma LinkedIsUsed(s: Terms, e: ExtId)
    requires Linked(s)
    ensures Valid(s.fsm) && (e in s.intMap ==> Used(s.fsm.blocks, s.intMap[e]))
  {
    hide Valid;
  }

  /** Giving back the ID of `e` and erasing any of its entries touches no other external ID. */
  lemma ErasedLinked(s: Terms, s': Terms, e: ExtId)
    requires Linked(s) && e in s.intMap && Valid(s'.fsm)
    requires forall x: nat :: Used(s'.fsm.blocks, x) == (x != s.intMap[e] && Used(s.fsm.blocks, x))
    requires s'.extMap == s.extMap || s'.extMap == s.extMap - {s.intMap[e]}
    requires s'.intMap == s.intMap || s'.intMap == s.intMap - {e}
    requires s'.vectors == s.vectors || s'.vectors == s.vectors - {s.intMap[e]}
    ensures LinkedExcept(s', {e})
    ensures Linked(s') <==> (e in s'.intMap ==> Used(s'.fsm.blocks, s'.intMap[e]))
  {
    hide Valid, Used;
    assert forall x :: x in s.intMap && x != e ==> s.intMap[x] != s.intMap[e];
  }

  lemma SameUsedLinked(s: Terms, s': Terms)
    requires Linked(s) && Valid(s'.fsm) && SameUsed(s.fsm.blocks, s'.fsm.blocks)
    requires s' == s.(fsm := s'.fsm)
    ensures Linked(s')
  {
    hide Valid;
  }

  /** Taking an unused ID and writing any prefix of the three entries keeps the maps linked. */
  lemma AddedLinked(s: Terms, s': Terms, e: ExtId, id: nat)
    requires Linked(s) && Valid(s'.fsm) && AddsOne(s.fsm.blocks, s'.fsm.blocks, id)
    requires s'.vectors == s.vectors || (id in s'.vectors && s'.vectors == s.vectors[id := s'.vectors[id]])
    requires s'.extMap == s.extMap || s'.extMap == s.extMap[id := e]
    requires s'.intMap == s.intMap
             || (s'.intMap == s.intMap[e := id] && s'.extMap == s.extMap[id := e] && id in s'.vectors)
    ensures Linked(s')
  {
    hide Valid;
    assert forall x :: x in s.intMap ==> Used(s.fsm.blocks, s.intMap[x]) && s.intMap[x] != id;
    hide Used;
  }

  /** Giving back a just-taken ID that no external ID was mapped to keeps the maps linked. */
  lemma GivenBackLinked(s: Terms, mid: Terms, s': Terms, id: nat)
    requires Linked(s) && Linked(mid) && Valid(s'.fsm) && s' == mid.(fsm := s'.fsm)
    requires !Used(s.fsm.blocks, id) && mid.intMap == s.intMap
    requires forall x: nat :: x != id ==> Used(s'.fsm.blocks, x) == Used(mid.fsm.blocks, x)
    ensures Linked(s')
  {
    hide Valid;
    assert forall e :: e in s.intMap ==> Used(s.fsm.blocks, s.intMap[e]);
    hide Used;
  }
}
