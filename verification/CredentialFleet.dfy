/** The whole credential engine: the map of models, each with its state object on a heap. An object that
    was unlinked by the removal of its model stays reachable from calls that looked it up before. */
module CredentialFleet {
  import opened WeightedPool
  import opened StickyPool
  import E = CredentialEngine

  /** Every state object with the lookups that hold it. */
  datatype Fleet = Fleet(models: map<string, nat>, heap: map<nat, E.World>, nextRef: nat)

  /** Calls act on the object they hold, linked or not; configuration, deletion and the janitor reach the
      linked ones, one object at a time. */
  datatype Event =
    | Call(ref: nat, e: E.Event)
    | OnModelChanged(model: string, refs: seq<MemberRef>)
    | OnCredentialDeleted(model: string, id: string)
    | Janitor(model: string, now: int)

  const Empty := Fleet(map[], map[], 0)

  ghost function NewObject(refs: seq<MemberRef>): E.World {
    E.World(E.Model(Pool(refs, map[], 0), map[], E.Stats(0, 0, 0)), map[])
  }

  /** A call runs sections of its own only. */
  ghost predicate OwnSection(e: E.Event) {
    e.Other? ==> e.sec.Exclude?
  }

  ghost predicate Fits(f: Fleet, ev: Event) {
    match ev
    case Call(r, e) => r in f.heap && OwnSection(e) && E.Fits(f.heap[r], e)
    case OnModelChanged(_, refs) => !InRefs(refs, "")
    case OnCredentialDeleted(m, _) => m in f.models
    case Janitor(m, _) => m in f.models
  }

  /** One section on one object. */
  ghost function Stepped(f: Fleet, r: nat, ttl: int, e: E.Event): Fleet
    requires r in f.heap && E.Fits(f.heap[r], e)
  {
    f.(heap := f.heap[r := E.Step(f.heap[r], ttl, e)])
  }

  ghost function Step(f: Fleet, ttl: int, ev: Event): Fleet
    requires Linked(f) && Fits(f, ev)
  {
    match ev
    case Call(r, e) => Stepped(f, r, ttl, e)
    case OnModelChanged(m, refs) =>
      if refs == [] then f.(models := f.models - {m})
      else if m in f.models then Stepped(f, f.models[m], ttl, E.Other(E.Change(refs)))
      else Fleet(f.models[m := f.nextRef], f.heap[f.nextRef := NewObject(refs)], f.nextRef + 1)
    case OnCredentialDeleted(m, id) => Stepped(f, f.models[m], ttl, E.Other(E.Delete(id)))
    case Janitor(m, now) => Stepped(f, f.models[m], ttl, E.Other(E.Sweep(now)))
  }

  ghost predicate Linked(f: Fleet) {
    forall m | m in f.models :: f.models[m] in f.heap
  }

  /** No two models share an object, and no object is taken twice. */
  ghost predicate Separate(f: Fleet) {
    && (forall r | r in f.heap :: r < f.nextRef)
    && (forall m, n | m in f.models && n in f.models && f.models[m] == f.models[n] :: m == n)
  }

  /** Rows name configured credentials, the gauge is exact, the empty key is never stored, and every tick
      of Hits and Misses is a lookup that returned a credential. */
  ghost predicate Accounted(w: E.World) {
    E.Inv(w.model) && E.Ticks(w) == |E.Successful(w)|
  }

  ghost predicate Sound(f: Fleet) {
    Linked(f) && Separate(f) && forall r | r in f.heap :: Accounted(f.heap[r])
  }

  lemma EventKeeps(w: E.World, ttl: int, e: E.Event)
    requires Accounted(w) && E.Fits(w, e)
    ensures Accounted(E.Step(w, ttl, e))
  {
    E.StepTicks(w, ttl, e);
    if e.Advance? {
      E.SectionKeeps(w.model, ttl, E.SectionOf(w.lookups[e.call], e.u));
    } else if e.Other? {
      E.SectionKeeps(w.model, ttl, e.sec);
    }
  }

  lemma SteppedKeeps(f: Fleet, r: nat, ttl: int, e: E.Event)
    requires Sound(f) && r in f.heap && E.Fits(f.heap[r], e)
    ensures Sound(Stepped(f, r, ttl, e))
  {
    EventKeeps(f.heap[r], ttl, e);
  }

  lemma NewObjectIsAccounted(refs: seq<MemberRef>)
    requires !InRefs(refs, "")
    ensures Accounted(NewObject(refs))
  {
    assert E.Successful(NewObject(refs)) == {};
    assert forall i | 0 <= i < |refs| :: InRefs(refs, refs[i].id);
  }

  lemma PublishingKeeps(f: Fleet, m: string, refs: seq<MemberRef>)
    requires Sound(f) && !InRefs(refs, "") && m !in f.models
    ensures Sound(Fleet(f.models[m := f.nextRef], f.heap[f.nextRef := NewObject(refs)], f.nextRef + 1))
  {
    NewObjectIsAccounted(refs);
  }

  lemma ChangeKeeps(f: Fleet, ttl: int, m: string, refs: seq<MemberRef>)
    requires Sound(f) && Fits(f, OnModelChanged(m, refs))
    ensures Sound(Step(f, ttl, OnModelChanged(m, refs)))
  {
    if refs != [] && m in f.models {
      SteppedKeeps(f, f.models[m], ttl, E.Other(E.Change(refs)));
    } else if refs != [] {
      PublishingKeeps(f, m, refs);
    }
  }

  lemma StepKeeps(f: Fleet, ttl: int, ev: Event)
    requires Sound(f) && Fits(f, ev)
    ensures Sound(Step(f, ttl, ev))
  {
    match ev {
      case Call(r, e) => SteppedKeeps(f, r, ttl, e);
      case OnModelChanged(m, refs) => ChangeKeeps(f, ttl, m, refs);
      case OnCredentialDeleted(m, id) => SteppedKeeps(f, f.models[m], ttl, E.Other(E.Delete(id)));
      case Janitor(m, now) => SteppedKeeps(f, f.models[m], ttl, E.Other(E.Sweep(now)));
    }
  }

  ghost function Run(f: Fleet, ttl: int, evs: seq<Event>): (f': Fleet)
    requires Sound(f)
    ensures Sound(f')
    decreases |evs|
  {
    if evs == [] then f
    else if Fits(f, evs[0]) then StepKeeps(f, ttl, evs[0]); Run(Step(f, ttl, evs[0]), ttl, evs[1..])
    else Run(f, ttl, evs[1..])
  }

  /** Over every run of the engine from its start, removals of models included: every object that ever was
      published, linked or not, is accounted for, and each model has an object of its own. */
  lemma EveryObjectIsAccounted(ttl: int, evs: seq<Event>)
    ensures Sound(Empty) && Sound(Run(Empty, ttl, evs))
  {
  }

  /** The event runs a section on this object. */
  ghost predicate Touches(f: Fleet, ev: Event, r: nat) {
    match ev
    case Call(q, _) => q == r
    case OnModelChanged(m, refs) => m in f.models && f.models[m] == r && refs != []
    case OnCredentialDeleted(m, _) => m in f.models && f.models[m] == r
    case Janitor(m, _) => m in f.models && f.models[m] == r
  }

  /** The events of one object, as its own run sees them. */
  ghost function Own(f: Fleet, ttl: int, evs: seq<Event>, r: nat): seq<E.Event>
    requires Sound(f)
    decreases |evs|
  {
    if evs == [] then []
    else if !Fits(f, evs[0]) then Own(f, ttl, evs[1..], r)
    else
      StepKeeps(f, ttl, evs[0]);
      (if Touches(f, evs[0], r) then [OwnEvent(evs[0])] else []) + Own(Step(f, ttl, evs[0]), ttl, evs[1..], r)
  }

  ghost function OwnEvent(ev: Event): E.Event {
    match ev
    case Call(_, e) => e
    case OnModelChanged(_, refs) => E.Other(E.Change(refs))
    case OnCredentialDeleted(_, id) => E.Other(E.Delete(id))
    case Janitor(_, now) => E.Other(E.Sweep(now))
  }

  lemma StepOnObject(f: Fleet, ttl: int, ev: Event, r: nat)
    requires Linked(f) && Separate(f) && Fits(f, ev) && r in f.heap
    ensures var f' := Step(f, ttl, ev);
      && r in f'.heap
      && (Touches(f, ev, r) ==>
            E.Fits(f.heap[r], OwnEvent(ev)) && f'.heap[r] == E.Step(f.heap[r], ttl, OwnEvent(ev)))
      && (!Touches(f, ev, r) ==> f'.heap[r] == f.heap[r])
  {
  }

  lemma OwnUnfolds(f: Fleet, ttl: int, evs: seq<Event>, r: nat)
    requires Sound(f) && evs != [] && Fits(f, evs[0])
    ensures Sound(Step(f, ttl, evs[0]))
    ensures var own, rest := Own(f, ttl, evs, r), Own(Step(f, ttl, evs[0]), ttl, evs[1..], r);
      if Touches(f, evs[0], r) then own != [] && own[0] == OwnEvent(evs[0]) && own[1..] == rest else own == rest
  {
    StepKeeps(f, ttl, evs[0]);
  }

  lemma RunUnfolds(w: E.World, ttl: int, own: seq<E.Event>)
    requires own != [] && E.Fits(w, own[0])
    ensures E.Run(w, ttl, own) == E.Run(E.Step(w, ttl, own[0]), ttl, own[1..])
  {
  }

  /** Isolation: what the engine does to an object is the run of that object's own events, whatever happens
      to the other models meanwhile. */
  lemma {:induction false} ObjectsAreIsolated(f: Fleet, ttl: int, evs: seq<Event>, r: nat)
    requires Sound(f) && r in f.heap
    ensures r in Run(f, ttl, evs).heap
    ensures Run(f, ttl, evs).heap[r] == E.Run(f.heap[r], ttl, Own(f, ttl, evs, r))
    decreases |evs|
  {
    if evs != [] {
      if Fits(f, evs[0]) {
        OwnUnfolds(f, ttl, evs, r);
        StepOnObject(f, ttl, evs[0], r);
        ObjectsAreIsolated(Step(f, ttl, evs[0]), ttl, evs[1..], r);
        if Touches(f, evs[0], r) {
          RunUnfolds(f.heap[r], ttl, Own(f, ttl, evs, r));
        }
      } else {
        ObjectsAreIsolated(f, ttl, evs[1..], r);
      }
    }
  }

  /** A configuration reaches the published object of its model alone, and none of its lookups. */
  lemma ReachingLaw(f: Fleet, ttl: int, m: string, refs: seq<MemberRef>)
    requires Linked(f) && Fits(f, OnModelChanged(m, refs)) && refs != [] && m in f.models
    ensures var f', r := Step(f, ttl, OnModelChanged(m, refs)), f.models[m];
      && f'.models == f.models && f'.heap.Keys == f.heap.Keys && f'.heap - {r} == f.heap - {r}
      && f'.heap[r].model.pool.refs == refs && f'.heap[r].lookups == f.heap[r].lookups
  {
  }

  /** An unknown model is published under a fresh object of its own, a model without credentials is unlinked,
      its object left to the calls that hold it. */
  lemma PublishingLaw(f: Fleet, ttl: int, m: string, refs: seq<MemberRef>)
    requires Linked(f) && Separate(f) && Fits(f, OnModelChanged(m, refs)) && (refs == [] || m !in f.models)
    ensures var f' := Step(f, ttl, OnModelChanged(m, refs));
      && f'.models - {m} == f.models - {m}
      && if refs == [] then m !in f'.models && f'.heap == f.heap
         else
           && m in f'.models && f'.models[m] !in f.heap
           && f'.heap == f.heap[f'.models[m] := E.World(E.Model(Pool(refs, map[], 0), map[], E.Stats(0, 0, 0)), map[])]
  {
  }
}
