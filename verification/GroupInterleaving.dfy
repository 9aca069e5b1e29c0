/** Whole calls of the group engine as interleaved lock sections over a heap of group states:
    what holds in every interleaving. */
module GroupInterleaving {
  import opened Options
  import opened WeightedPool
  import opened GroupSections
  import opened GroupSelection

  datatype Config = Config(ttl: int, defaultCooldown: int)

  datatype Request =
    | Get(group: string, key: string)
    | GetBackup(group: string, key: string)
    | Fail(group: string, key: string, excluded: string, retryAfter: int)
    | FailBackup(group: string, key: string, excluded: string, retryAfter: int)

  /** Where a call is between two lock sections of the group state it looked up. */
  datatype Phase =
    | Counting | Single | Reading | Upgrading(hit: string) | Selecting(carried: bool)
    | Snapping | FastBackup(id: string) | MarkingSingle | Reselecting

  /** A finished call remembers its last section and the state that section ran on. */
  datatype Pc = Lookup | Running(ref: nat, phase: Phase) | NoGroup | Finished(sec: Section, before: State)

  datatype Call = Call(req: Request, now: int, pc: Pc)

  /** Group states live on a heap: a removed group's state stays reachable from calls that
      looked it up before the removal. */
  datatype World = World(groups: map<string, nat>, heap: map<nat, State>, nextRef: nat, calls: map<nat, Call>)

  datatype Event =
    | Begin(call: nat, req: Request, now: int)
    | Advance(call: nat, u: Rand, clock: int)
    | Configure(group: string, refs: seq<MemberRef>)
    | Janitor(group: string, now: int)

  ghost function Cooldown(cfg: Config, retryAfter: int): int {
    if retryAfter > 0 then retryAfter else cfg.defaultCooldown
  }

  ghost predicate PhaseFits(req: Request, ph: Phase) {
    match ph
    case Counting => req.Get? || req.Fail?
    case Single => req.Get?
    case Reading => req.Get? && req.key != ""
    case Upgrading(_) => req.Get? && req.key != ""
    case Selecting(_) => req.Get? || req.GetBackup?
    case Snapping => req.GetBackup? || req.FailBackup?
    case FastBackup(_) => req.GetBackup? && req.key != ""
    case MarkingSingle => req.FailBackup?
    case Reselecting => req.Fail? || req.FailBackup?
  }

  /** The section that a call in this phase runs next. */
  ghost function SectionOf(cfg: Config, c: Call, ph: Phase, u: Rand, clock: int): (sec: Section)
    requires cfg.defaultCooldown > 0 && PhaseFits(c.req, ph)
    ensures Legal(sec) && !sec.Change? && (sec.First? <==> ph.Single?)
  {
    match ph
    case Counting => Count
    case Single => First
    case Reading => Read(c.req.key, c.now)
    case Upgrading(hit) => Upgrade(c.req.key, hit, c.now)
    case Selecting(carried) =>
      if c.req.Get? then Full(c.req.key, c.now, u) else BackupFull(c.req.key, c.now, carried, u)
    case Snapping => BackupSnapshot
    case FastBackup(id) => BackupFast(c.req.key, id, c.now)
    case MarkingSingle => BackupSingle(c.req.excluded, Cooldown(cfg, c.req.retryAfter), clock)
    case Reselecting =>
      var cd := Cooldown(cfg, c.req.retryAfter);
      if c.req.Fail? then Exclude(c.req.key, c.req.excluded, cd, c.now, u)
      else BackupExclude(c.req.key, c.req.excluded, cd, c.now, u)
  }

  ghost function AfterSingle(req: Request): Phase {
    if req.key != "" then Reading else Selecting(false)
  }

  /** The phase a reply leads to, or nothing when the call returns. */
  ghost function Next(req: Request, r: Reply): Option<Phase> {
    match r
    case Size(n) =>
      if n == 0 || (n == 1 && req.Fail?) then None
      else Some(if req.Fail? then Reselecting else if n == 1 then Single else AfterSingle(req))
    case Head(m) => if m.backupOnly then Some(AfterSingle(req)) else None
    case Hit(found) => Some(if found.Some? then Upgrading(found.value) else Selecting(false))
    case Refreshed(ok) => if ok then None else Some(Selecting(false))
    case Snapshot(has, n, fastId) =>
      if !has then None
      else if req.FailBackup? then Some(if n == 1 then MarkingSingle else Reselecting)
      else if fastId.None? then Some(Selecting(false))
      else if req.key == "" then None
      else Some(FastBackup(fastId.value))
    case Retry(carried) => Some(Selecting(carried))
    case Marked(ok) => if ok then None else Some(Reselecting)
    case _ => None
  }

  ghost predicate CanRun(w: World, c: Call) {
    match c.pc
    case Lookup => true
    case Running(ref, ph) => ref in w.heap && PhaseFits(c.req, ph) && (ph.Single? ==> w.heap[ref].members != [])
    case _ => false
  }

  ghost predicate EventFits(w: World, e: Event) {
    match e
    case Begin(i, _, _) => i !in w.calls
    case Advance(i, _, _) => i in w.calls && CanRun(w, w.calls[i])
    case Configure(g, refs) => !InRefs(refs, "") && (g in w.groups ==> w.groups[g] in w.heap)
    case Janitor(g, _) => g in w.groups && w.groups[g] in w.heap
  }

  /** One atomic step. */
  ghost function Step(cfg: Config, w: World, e: Event): World
    requires cfg.defaultCooldown > 0 && EventFits(w, e)
  {
    match e
    case Begin(i, req, now) => w.(calls := w.calls[i := Call(req, now, Lookup)])
    case Advance(i, u, clock) =>
      var c := w.calls[i];
      if c.pc.Lookup? then
        var pc := if c.req.group !in w.groups then NoGroup
                  else Running(w.groups[c.req.group], if c.req.Get? || c.req.Fail? then Counting else Snapping);
        w.(calls := w.calls[i := c.(pc := pc)])
      else
        var s := w.heap[c.pc.ref];
        var sec := SectionOf(cfg, c, c.pc.phase, u, clock);
        var (s', r) := Do(s, cfg.ttl, sec);
        var next := Next(c.req, r);
        var pc := if next.None? then Finished(sec, s) else Running(c.pc.ref, next.value);
        w.(heap := w.heap[c.pc.ref := s'], calls := w.calls[i := c.(pc := pc)])
    case Configure(g, refs) =>
      if refs == [] then w.(groups := w.groups - {g})
      else if g in w.groups then
        w.(heap := w.heap[w.groups[g] := Do(w.heap[w.groups[g]], cfg.ttl, Change(refs)).0])
      else
        w.(groups := w.groups[g := w.nextRef], heap := w.heap[w.nextRef := NewState(refs)], nextRef := w.nextRef + 1)
    case Janitor(g, now) =>
      w.(heap := w.heap[w.groups[g] := Do(w.heap[w.groups[g]], cfg.ttl, Sweep(now)).0])
  }

  // ------------------------------------- what sections keep, interleavings keep

  /** A property that new groups have and every section keeps. */
  ghost predicate Kept(inv: State -> bool, ttl: int) {
    && (forall s :: inv(s) ==> s.members != [])
    && (forall refs :: refs != [] && !InRefs(refs, "") ==> inv(NewState(refs)))
    && (forall s, sec :: inv(s) && Enabled(s, sec) ==> inv(Do(s, ttl, sec).0))
  }

  ghost predicate CallSound(w: World, c: Call, inv: State -> bool) {
    match c.pc
    case Running(ref, ph) => ref in w.heap && PhaseFits(c.req, ph)
    case Finished(sec, before) => inv(before) && Enabled(before, sec) && !sec.Change? && SectionTime(sec, c)
    case _ => true
  }

  /** The sections of a lookup are timed by the moment its caller captured. */
  ghost predicate SectionTime(sec: Section, c: Call) {
    && (sec.Full? ==> c.req.Get? && sec.key == c.req.key && sec.now == c.now)
    && (sec.Upgrade? ==> c.req.Get? && sec.key == c.req.key && sec.now == c.now)
  }

  ghost predicate Sound(w: World, inv: State -> bool) {
    && (forall r | r in w.heap :: r < w.nextRef && inv(w.heap[r]))
    && (forall g | g in w.groups :: w.groups[g] in w.heap)
    && (forall i | i in w.calls :: CallSound(w, w.calls[i], inv))
  }

  lemma PhaseFollows(cfg: Config, c: Call, ph: Phase, s: State, u: Rand, clock: int)
    requires cfg.defaultCooldown > 0 && PhaseFits(c.req, ph) && s.members != []
    ensures var next := Next(c.req, Do(s, cfg.ttl, SectionOf(cfg, c, ph, u, clock)).1);
      next.Some? ==> PhaseFits(c.req, next.value)
  {
    var r := Do(s, cfg.ttl, SectionOf(cfg, c, ph, u, clock)).1;
    match ph {
      case Counting => assert r.Size?;
      case Single => assert r.Head?;
      case Reading => assert r.Hit?;
      case Upgrading(_) => assert r.Refreshed?;
      case Selecting(_) => assert r.Served?;
      case Snapping => assert r.Snapshot?;
      case FastBackup(_) => assert r.Served? || r.Retry?;
      case MarkingSingle => assert r.Marked?;
      case Reselecting => assert r.Reselected?;
    }
  }

  lemma AdvanceKeepsSound(cfg: Config, w: World, e: Event, inv: State -> bool)
    requires cfg.defaultCooldown > 0 && Kept(inv, cfg.ttl) && Sound(w, inv) && EventFits(w, e)
    requires e.Advance? && w.calls[e.call].pc.Running?
    ensures Sound(Step(cfg, w, e), inv)
  {
    var c := w.calls[e.call];
    var s := w.heap[c.pc.ref];
    PhaseFollows(cfg, c, c.pc.phase, s, e.u, e.clock);
    var w' := Step(cfg, w, e);
    assert w'.heap.Keys == w.heap.Keys;
    forall i | i in w'.calls && i != e.call
      ensures CallSound(w', w'.calls[i], inv)
    {
      assert w'.calls[i] == w.calls[i] && CallSound(w, w.calls[i], inv);
    }
  }

  lemma HeapUpdateKeepsSound(w: World, ref: nat, s': State, inv: State -> bool)
    requires Sound(w, inv) && ref in w.heap && inv(s')
    ensures Sound(w.(heap := w.heap[ref := s']), inv)
  {
  }

  lemma NewGroupKeepsSound(w: World, g: string, s': State, inv: State -> bool)
    requires Sound(w, inv) && inv(s')
    ensures Sound(w.(groups := w.groups[g := w.nextRef], heap := w.heap[w.nextRef := s'], nextRef := w.nextRef + 1),
        inv)
  {
  }

  lemma StepKeepsSound(cfg: Config, w: World, e: Event, inv: State -> bool)
    requires cfg.defaultCooldown > 0 && Kept(inv, cfg.ttl) && Sound(w, inv) && EventFits(w, e)
    ensures Sound(Step(cfg, w, e), inv)
  {
    match e {
      case Begin(_, _, _) =>
      case Advance(i, _, _) =>
        if w.calls[i].pc.Running? {
          AdvanceKeepsSound(cfg, w, e, inv);
        }
      case Configure(g, refs) =>
        if refs != [] {
          if g in w.groups {
            HeapUpdateKeepsSound(w, w.groups[g], Do(w.heap[w.groups[g]], cfg.ttl, Change(refs)).0, inv);
          } else {
            NewGroupKeepsSound(w, g, NewState(refs), inv);
          }
        }
      case Janitor(g, now) =>
        HeapUpdateKeepsSound(w, w.groups[g], Do(w.heap[w.groups[g]], cfg.ttl, Sweep(now)).0, inv);
    }
  }

  /** Any interleaving: an event that is not possible where it stands is skipped. */
  ghost function Run(cfg: Config, w: World, es: seq<Event>): World
    requires cfg.defaultCooldown > 0
    decreases |es|
  {
    if es == [] then w
    else Run(cfg, if EventFits(w, es[0]) then Step(cfg, w, es[0]) else w, es[1..])
  }

  lemma {:induction false} RunKeepsSound(cfg: Config, w: World, es: seq<Event>, inv: State -> bool)
    requires cfg.defaultCooldown > 0 && Kept(inv, cfg.ttl) && Sound(w, inv)
    ensures Sound(Run(cfg, w, es), inv)
    decreases |es|
  {
    if es != [] {
      if EventFits(w, es[0]) {
        StepKeepsSound(cfg, w, es[0], inv);
        RunKeepsSound(cfg, Step(cfg, w, es[0]), es[1..], inv);
      } else {
        RunKeepsSound(cfg, w, es[1..], inv);
      }
    }
  }

  const Empty := World(map[], map[], 0, map[])

  ghost const Good: State -> bool := s => Inv(s) && Partitioned(s)

  lemma GoodIsKept(ttl: int)
    ensures Kept(Good, ttl)
  {
    forall refs | refs != [] && !InRefs(refs, "")
      ensures Good(NewState(refs))
    {
      SideIds(refs, false);
      SideIds(refs, true);
    }
    forall s, sec | Good(s) && Enabled(s, sec)
      ensures Good(Do(s, ttl, sec).0)
    {
      SectionKeeps(s, ttl, sec);
      SectionKeepsPartition(s, ttl, sec);
    }
  }

  lemma EveryRunIsSound(cfg: Config, es: seq<Event>)
    requires cfg.defaultCooldown > 0
    ensures Sound(Run(cfg, Empty, es), Good)
  {
    GoodIsKept(cfg.ttl);
    RunKeepsSound(cfg, Empty, es, Good);
  }

  /** In every interleaving: each sticky row of each group state names a current member of the
      union of its pools, both mirrors equal the number of rows, the empty key is never stored, and
      the pools split the members by their flag. */
  lemma EveryInterleavingKeepsRows(cfg: Config, es: seq<Event>, ref: nat)
    requires cfg.defaultCooldown > 0 && ref in Run(cfg, Empty, es).heap
    ensures var s := Run(cfg, Empty, es).heap[ref];
      && (forall k | k in s.def.bindings :: k != "" && InRefs(s.members, s.def.bindings[k].member))
      && (forall k | k in s.bak.bindings :: k != "" && InRefs(s.members, s.bak.bindings[k].member))
      && s.def.count == |s.def.bindings| && s.bak.count == |s.bak.bindings|
      && Partitioned(s)
  {
    EveryRunIsSound(cfg, es);
    assert Good(Run(cfg, Empty, es).heap[ref]);
  }

  /** In every interleaving a call that is under way can take its next section: in particular
      members[0] exists although the membership may have changed since it was counted. */
  lemma NoSectionOutOfRange(cfg: Config, es: seq<Event>, i: nat)
    requires cfg.defaultCooldown > 0 && i in Run(cfg, Empty, es).calls
    requires Run(cfg, Empty, es).calls[i].pc.Running?
    ensures CanRun(Run(cfg, Empty, es), Run(cfg, Empty, es).calls[i])
  {
    EveryRunIsSound(cfg, es);
    var w := Run(cfg, Empty, es);
    assert CallSound(w, w.calls[i], Good);
    assert Good(w.heap[w.calls[i].pc.ref]);
  }

  /** The member a finished call returned; "" with an error or ReselectNone. */
  ghost function AnswerOf(cfg: Config, c: Call): string
    requires c.pc.Finished? && Enabled(c.pc.before, c.pc.sec)
  {
    Answer(c.pc.sec, Do(c.pc.before, cfg.ttl, c.pc.sec).1)
  }

  /** In every interleaving, a finished call was answered with a member of its group, as the
      group was when its last section ran. */
  lemma EveryAnswerIsAMember(cfg: Config, es: seq<Event>, i: nat)
    requires cfg.defaultCooldown > 0 && i in Run(cfg, Empty, es).calls
    requires Run(cfg, Empty, es).calls[i].pc.Finished?
    ensures var c := Run(cfg, Empty, es).calls[i];
      Enabled(c.pc.before, c.pc.sec) && (AnswerOf(cfg, c) == "" || InRefs(c.pc.before.members, AnswerOf(cfg, c)))
  {
    EveryRunIsSound(cfg, es);
    var w := Run(cfg, Empty, es);
    var c := w.calls[i];
    assert CallSound(w, c, Good) && Good(c.pc.before);
    SectionKeeps(c.pc.before, cfg.ttl, c.pc.sec);
  }

  /** Member `a` was served at `now` from state `s`, leaving `s'`: if it cools, the whole default
      pool cools, it is the first to expire, and the conversation has no row. */
  ghost predicate CoolsOnlyIfAll(s: State, s': State, key: string, a: string, now: int) {
    a != "" && Cooling(s.cooldowns, a, now) ==>
      && AllCooling(s.def.refs, s.cooldowns, now)
      && (exists k :: ExpiresFirst(s.def.refs, s.cooldowns, |s.def.refs|, k) && s.def.refs[k].id == a)
      && (key != "" ==> key !in s'.def.bindings)
  }

  lemma FullNeverCools(s: State, ttl: int, key: string, now: int, u: Rand)
    requires Inv(s)
    ensures var (s', r) := Do(s, ttl, Full(key, now, u)); CoolsOnlyIfAll(s, s', key, r.out.member, now)
  {
    assert !InRefs(s.def.refs, "");
    NeverCoolingUnlessAll(s.def, s.members, s.cooldowns, ttl, key, now, false, u);
  }

  /** In every interleaving, a lookup that passed the single-member shortcut returns a member that
      cools at the caller's time only if every default member does; then it is the one that
      expires first, and the conversation is left without a row. */
  lemma EveryLookupAvoidsCooling(cfg: Config, es: seq<Event>, i: nat)
    requires cfg.defaultCooldown > 0 && i in Run(cfg, Empty, es).calls
    requires var pc := Run(cfg, Empty, es).calls[i].pc; pc.Finished? && (pc.sec.Full? || pc.sec.Upgrade?)
    ensures var c := Run(cfg, Empty, es).calls[i];
      Enabled(c.pc.before, c.pc.sec)
      && CoolsOnlyIfAll(c.pc.before, Do(c.pc.before, cfg.ttl, c.pc.sec).0, c.req.key, AnswerOf(cfg, c), c.now)
  {
    EveryRunIsSound(cfg, es);
    var w := Run(cfg, Empty, es);
    var c := w.calls[i];
    assert CallSound(w, c, Good) && Good(c.pc.before);
    if c.pc.sec.Full? {
      FullNeverCools(c.pc.before, cfg.ttl, c.pc.sec.key, c.pc.sec.now, c.pc.sec.u);
    }
  }
}
