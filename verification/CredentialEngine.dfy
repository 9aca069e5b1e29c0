/** The credential engine (pkg/credentiallb/engine.go): the one-pool twin of the group engine with
    stats and class-dependent cooldowns. Credentials live in the shared pool with their integer
    weights embedded in the reals (CredentialSelector.EmbeddedDraw). */
module CredentialEngine {
  import opened Options
  import opened WeightedPool
  import opened StickyPool
  import J = GroupJanitor
  import opened GroupSelection

  datatype Stats = Stats(hits: nat, misses: nat, failovers: nat)

  datatype Model = Model(pool: Pool, cooldowns: Cooldowns, stats: Stats)

  ghost function Hits(m: Model): Model {
    m.(stats := m.stats.(hits := m.stats.hits + 1))
  }

  // ------------------------------------------------------------------- lock sections

  datatype Section =
    | Read(key: string, now: int)
    | Upgrade(key: string, hit: string, now: int)
    | Full(key: string, now: int, u: Rand)
    | Exclude(key: string, excluded: string, cooldown: int, now: int, u: Rand)
    | Change(refs: seq<MemberRef>)
    | Delete(id: string)
    | Sweep(now: int)

  datatype Reply =
    | Hit(found: Option<string>)
    | Refreshed(ok: bool)
    | Served(out: Outcome)
    | Reselected(member: string, mode: Mode)
    | Quiet

  ghost predicate HasRow(m: Model, ttl: int, key: string, now: int) {
    key != "" && key in m.pool.bindings && Live(m.pool.bindings[key], m.pool.refs, m.cooldowns, ttl, now)
  }

  /** The full lookup: a hit ticks Hits, any performed selection ticks Misses, a failure neither. */
  ghost function Select(m: Model, ttl: int, key: string, now: int, u: Rand): (Model, Outcome) {
    var (p, out) := SelectIn(m.pool, m.pool.refs, m.cooldowns, ttl, key, now, false, u);
    var st := m.stats;
    var st' := if HasRow(m, ttl, key, now) then st.(hits := st.hits + 1)
               else if out.failed then st else st.(misses := st.misses + 1);
    (m.(pool := p, stats := st'), out.(staleRepaired := false))
  }

  ghost predicate AlreadyMoved(m: Model, cds: Cooldowns, key: string, x: string, now: int) {
    && key != "" && key in m.pool.bindings && m.pool.bindings[key].member != x
    && !Cooling(cds, m.pool.bindings[key].member, now)
  }

  /** The rebinding half of a failover, after the mark, with whether the conversation had already moved
      to a healthy credential. */
  ghost function Rebound(p: Pool, cds: Cooldowns, key: string, x: string, now: int, u: Rand)
    : (Pool, string, Mode, bool)
  {
    if key != "" && key in p.bindings && p.bindings[key].member != x && !Cooling(cds, p.bindings[key].member, now)
    then (p, p.bindings[key].member, ReselectHealthy, true)
    else
      var pick := PickHealthy(p.refs, CoolingIds(cds, now), u);
      if pick == "" || pick == x then
        var soonest := Soonest(p.refs, cds, now);
        (p, soonest, if soonest == "" then ReselectNone else ReselectSoonestExpiry, false)
      else (if key == "" then p else Bind(p, key, pick, now), pick, ReselectHealthy, false)
  }

  /** The failover: the mark, then the rebinding. Failovers ticks for a healthy pick, not for a
      conversation that had moved. */
  ghost function Reselect(m: Model, key: string, x: string, cooldown: int, now: int, u: Rand): (Model, string, Mode) {
    ReselectUntil(m, key, x, now + cooldown, now, u)
  }

  /** The failover with its mark given as a moment. */
  ghost function ReselectUntil(m: Model, key: string, x: string, until: int, now: int, u: Rand)
    : (Model, string, Mode)
  {
    var cds := m.cooldowns[x := until];
    var (p, c, mode, moved) := Rebound(m.pool, cds, key, x, now, u);
    var st := m.stats;
    (Model(p, cds, if mode == ReselectHealthy && !moved then st.(failovers := st.failovers + 1) else st), c, mode)
  }

  ghost predicate Legal(sec: Section) {
    && (sec.Change? ==> sec.refs != [] && !InRefs(sec.refs, ""))
    && (sec.Exclude? ==> sec.cooldown > 0)
  }

  ghost function Do(m: Model, ttl: int, sec: Section): (Model, Reply) {
    match sec
    case Read(key, now) => (m, Hit(if HasRow(m, ttl, key, now) then Some(m.pool.bindings[key].member) else None))
    case Upgrade(key, hit, now) =>
      var b := m.pool.bindings;
      if key in b && b[key].member == hit && !Expired(b[key], ttl, now) && !Cooling(m.cooldowns, hit, now)
      then (Hits(m.(pool := Bind(m.pool, key, hit, now))), Refreshed(true))
      else (m, Refreshed(false))
    case Full(key, now, u) => var (m', out) := Select(m, ttl, key, now, u); (m', Served(out))
    case Exclude(key, x, cd, now, u) => var (m', c, mode) := Reselect(m, key, x, cd, now, u); (m', Reselected(c, mode))
    case Change(refs) => (m.(pool := Without(m.pool.(refs := refs), Orphans(m.pool.bindings, refs))), Quiet)
    case Delete(id) =>
      (m.(pool := Without(m.pool, set k | k in m.pool.bindings && m.pool.bindings[k].member == id),
          cooldowns := m.cooldowns - {id}), Quiet)
    case Sweep(now) =>
      (m.(pool := Without(m.pool, Idle(m.pool.bindings, ttl, now)),
          cooldowns := map id | id in m.cooldowns && m.cooldowns[id] > now :: m.cooldowns[id]), Quiet)
  }

  // --------------------------------------------------------- the stats of interleaved calls

  /** A lookup between its lock sections, after its credential count was read as two or more.
      A finished lookup holds the credential it returned. */
  datatype Phase = Reading | Upgrading(hit: string) | Selecting | Finished(answer: Option<string>)

  datatype Lookup = Lookup(key: string, now: int, phase: Phase)

  datatype World = World(model: Model, lookups: map<nat, Lookup>)

  datatype Event =
    | Begin(call: nat, key: string, now: int)
    | Advance(call: nat, u: Rand)
    | Other(sec: Section)

  ghost predicate Fits(w: World, e: Event) {
    match e
    case Begin(i, _, _) => i !in w.lookups
    case Advance(i, _) => i in w.lookups && !w.lookups[i].phase.Finished?
    case Other(sec) => Legal(sec) && (sec.Exclude? || sec.Change? || sec.Delete? || sec.Sweep?)
  }

  ghost function SectionOf(l: Lookup, u: Rand): Section
    requires !l.phase.Finished?
  {
    match l.phase
    case Reading => Read(l.key, l.now)
    case Upgrading(hit) => Upgrade(l.key, hit, l.now)
    case Selecting => Full(l.key, l.now, u)
  }

  ghost function Next(sec: Section, r: Reply): Phase {
    match r
    case Hit(found) => if found.Some? then Upgrading(found.value) else Selecting
    case Refreshed(ok) => if ok && sec.Upgrade? then Finished(Some(sec.hit)) else Selecting
    case Served(out) => Finished(if out.failed then None else Some(out.member))
    case _ => Selecting
  }

  ghost function Step(w: World, ttl: int, e: Event): World
    requires Fits(w, e)
  {
    match e
    case Begin(i, key, now) => w.(lookups := w.lookups[i := Lookup(key, now, if key == "" then Selecting else Reading)])
    case Advance(i, u) =>
      var l := w.lookups[i];
      var (m', r) := Do(w.model, ttl, SectionOf(l, u));
      World(m', w.lookups[i := l.(phase := Next(SectionOf(l, u), r))])
    case Other(sec) => w.(model := Do(w.model, ttl, sec).0)
  }

  ghost function Run(w: World, ttl: int, es: seq<Event>): World
    decreases |es|
  {
    if es == [] then w else Run(if Fits(w, es[0]) then Step(w, ttl, es[0]) else w, ttl, es[1..])
  }

  /** The lookups that returned a credential. */
  ghost function Successful(w: World): set<nat> {
    set i | i in w.lookups && w.lookups[i].phase.Finished? && w.lookups[i].phase.answer.Some?
  }

  ghost function Ticks(w: World): int {
    w.model.stats.hits + w.model.stats.misses
  }

  /** A section of a lookup ticks exactly when it serves. */
  lemma SectionTicks(m: Model, ttl: int, sec: Section)
    requires sec.Read? || sec.Upgrade? || sec.Full?
    ensures var (m', r) := Do(m, ttl, sec);
      var done := Next(sec, r);
      m'.stats.hits + m'.stats.misses
      == m.stats.hits + m.stats.misses + if done.Finished? && done.answer.Some? then 1 else 0
  {
  }

  lemma StepTicks(w: World, ttl: int, e: Event)
    requires Fits(w, e)
    ensures Ticks(Step(w, ttl, e)) - |Successful(Step(w, ttl, e))| == Ticks(w) - |Successful(w)|
  {
    var w' := Step(w, ttl, e);
    match e {
      case Begin(i, _, _) => assert Successful(w') == Successful(w);
      case Other(_) => assert Successful(w') == Successful(w);
      case Advance(i, u) =>
        SectionTicks(w.model, ttl, SectionOf(w.lookups[i], u));
        OneMoved(w, w', i);
    }
  }

  /** One lookup moved on: it joins the successful ones or nothing changes. */
  lemma OneMoved(w: World, w': World, i: nat)
    requires i in w.lookups && !w.lookups[i].phase.Finished? && i in w'.lookups
    requires w'.lookups == w.lookups[i := w'.lookups[i]]
    ensures var ph := w'.lookups[i].phase;
      |Successful(w')| == |Successful(w)| + if ph.Finished? && ph.answer.Some? then 1 else 0
  {
    if i in Successful(w') {
      assert Successful(w') == Successful(w) + {i};
    } else {
      assert Successful(w') == Successful(w);
    }
  }

  /** Conservation: in every interleaving of lookups, failovers, configuration changes, deletions
      and sweeps, Hits + Misses grows by exactly the number of multi-credential lookups that
      returned a credential. */
  lemma {:induction false} HitsAndMissesCountLookups(w: World, ttl: int, es: seq<Event>)
    ensures Ticks(Run(w, ttl, es)) - |Successful(Run(w, ttl, es))| == Ticks(w) - |Successful(w)|
    decreases |es|
  {
    if es != [] {
      if Fits(w, es[0]) {
        StepTicks(w, ttl, es[0]);
      }
      HitsAndMissesCountLookups(if Fits(w, es[0]) then Step(w, ttl, es[0]) else w, ttl, es[1..]);
    }
  }

  // ---------------------------------------------------------------- what sections keep

  ghost predicate Inv(m: Model) {
    !InRefs(m.pool.refs, "") && PoolInv(m.pool, m.pool.refs)
  }

  lemma FullKeeps(m: Model, ttl: int, key: string, now: int, u: Rand)
    requires Inv(m)
    ensures Inv(Do(m, ttl, Full(key, now, u)).0)
  {
    SelectKeeps(m.pool, m.pool.refs, m.cooldowns, ttl, key, now, false, u);
  }

  lemma ExcludeKeeps(m: Model, ttl: int, key: string, x: string, cd: int, now: int, u: Rand)
    requires Inv(m)
    ensures Inv(Do(m, ttl, Exclude(key, x, cd, now, u)).0)
  {
    var out := CoolingIds(m.cooldowns[x := now + cd], now);
    PickFacts(m.pool.refs, out, u);
    BindCounts(m.pool, key, PickHealthy(m.pool.refs, out, u), now);
  }

  /** Rows that go away leave the others as they were. */
  lemma WithoutKeeps(p: Pool, refs: seq<MemberRef>, keys: set<string>)
    requires p.count == |p.bindings| && "" !in p.bindings && keys <= p.bindings.Keys
    requires forall k | k in p.bindings && k !in keys :: InRefs(refs, p.bindings[k].member)
    ensures PoolInv(Without(p.(refs := refs), keys), refs)
  {
    WithoutCounts(p.(refs := refs), keys);
  }

  lemma SectionKeeps(m: Model, ttl: int, sec: Section)
    requires Inv(m) && Legal(sec)
    ensures Inv(Do(m, ttl, sec).0)
  {
    var b := m.pool.bindings;
    match sec {
      case Read(_, _) =>
      case Upgrade(key, hit, now) => BindCounts(m.pool, key, hit, now);
      case Full(key, now, u) => FullKeeps(m, ttl, key, now, u);
      case Exclude(key, x, cd, now, u) => ExcludeKeeps(m, ttl, key, x, cd, now, u);
      case Change(refs) => WithoutKeeps(m.pool, refs, Orphans(b, refs));
      case Delete(id) => WithoutKeeps(m.pool, m.pool.refs, set k | k in b && b[k].member == id);
      case Sweep(now) => WithoutKeeps(m.pool, m.pool.refs, Idle(b, ttl, now));
    }
  }

  /** In every interleaving: each row names a configured credential, the Bindings gauge equals the
      number of rows, and the empty key is never stored. */
  lemma {:induction false} RunKeeps(w: World, ttl: int, es: seq<Event>)
    requires Inv(w.model)
    ensures Inv(Run(w, ttl, es).model)
    decreases |es|
  {
    if es != [] {
      if Fits(w, es[0]) {
        if es[0].Advance? {
          var l := w.lookups[es[0].call];
          SectionKeeps(w.model, ttl, SectionOf(l, es[0].u));
        } else if es[0].Other? {
          SectionKeeps(w.model, ttl, es[0].sec);
        }
      }
      RunKeeps(if Fits(w, es[0]) then Step(w, ttl, es[0]) else w, ttl, es[1..]);
    }
  }

  /** Whatever else interleaves, the step that ends a lookup hands out a configured credential that
      cools at the caller's time only if all of them do; then it is the first to expire (ties to
      the lower position) and the conversation is left without a row. */
  lemma EveryLookupAvoidsCooling(w: World, ttl: int, es: seq<Event>, e: Event, w1: World, w2: World)
    requires Inv(w.model) && w1 == Run(w, ttl, es) && Fits(w1, e) && e.Advance? && w2 == Step(w1, ttl, e)
    requires w2.lookups[e.call].phase.Finished? && w2.lookups[e.call].phase.answer.Some?
    ensures var l := w2.lookups[e.call];
      var c := l.phase.answer.value;
      var m := w1.model;
      && InRefs(m.pool.refs, c)
      && (Cooling(m.cooldowns, c, l.now) ==>
            && AllCooling(m.pool.refs, m.cooldowns, l.now)
            && (exists k :: ExpiresFirst(m.pool.refs, m.cooldowns, |m.pool.refs|, k) && m.pool.refs[k].id == c)
            && (l.key != "" ==> l.key !in w2.model.pool.bindings))
  {
    RunKeeps(w, ttl, es);
    var m, l := w1.model, w1.lookups[e.call];
    if l.phase.Selecting? {
      SelectKeeps(m.pool, m.pool.refs, m.cooldowns, ttl, l.key, l.now, false, e.u);
      NeverCoolingUnlessAll(m.pool, m.pool.refs, m.cooldowns, ttl, l.key, l.now, false, e.u);
    }
  }

  // ------------------------------------------------------------------ one rebind, one tick

  /** Failovers ticks exactly for a healthy answer that is not the already-moved no-op; such an
      answer is neither the excluded credential nor a cooling one and is what the conversation is
      bound to; no other conversation is touched. */
  lemma FailoverTicks(m: Model, key: string, x: string, cd: int, now: int, u: Rand)
    requires Inv(m) && cd > 0
    ensures var (m', c, mode) := Reselect(m, key, x, cd, now, u);
      var moved := AlreadyMoved(m, m'.cooldowns, key, x, now);
      && m'.stats == m.stats.(failovers := m.stats.failovers + if mode == ReselectHealthy && !moved then 1 else 0)
      && (mode == ReselectHealthy ==> c != x && !Cooling(m'.cooldowns, c, now) && InRefs(m.pool.refs, c))
      && (mode == ReselectHealthy && key != "" ==> key in m'.pool.bindings && m'.pool.bindings[key].member == c)
      && m'.pool.bindings - {key} == m.pool.bindings - {key}
  {
    var cds := m.cooldowns[x := now + cd];
    PickFacts(m.pool.refs, CoolingIds(cds, now), u);
  }

  /** The three outcomes of a failover: healthy exactly when the conversation had moved to a healthy
      credential or there is one; otherwise rows and stats stay, and it is the first to expire exactly
      when all of them cool. */
  lemma FailoverModes(m: Model, key: string, x: string, cd: int, now: int, u: Rand)
    requires Inv(m) && cd > 0
    ensures var (m', c, mode) := Reselect(m, key, x, cd, now, u);
      var refs := m.pool.refs;
      && m'.cooldowns == m.cooldowns[x := now + cd]
      && (mode == ReselectHealthy
          <==> AlreadyMoved(m, m'.cooldowns, key, x, now) || (Selectable(refs) && !AllCooling(refs, m'.cooldowns, now)))
      && (mode != ReselectHealthy ==> m'.pool == m.pool && m'.stats == m.stats)
      && (mode == ReselectSoonestExpiry ==> AllCooling(refs, m'.cooldowns, now))
      && (mode == ReselectSoonestExpiry ==> exists k :: ExpiresFirst(refs, m'.cooldowns, |refs|, k) && refs[k].id == c)
      && (mode == ReselectNone ==> c == "" && (refs == [] || !AllCooling(refs, m'.cooldowns, now)))
  {
    var cds := m.cooldowns[x := now + cd];
    PickFacts(m.pool.refs, CoolingIds(cds, now), u);
    SoonestFacts(m.pool.refs, cds, now);
    assert AllCooling(m.pool.refs, cds, now) <==> AllIn(m.pool.refs, CoolingIds(cds, now));
  }

  datatype Failure = Failure(cooldown: int, now: int, u: Rand)

  ghost function Failures(m: Model, key: string, x: string, fs: seq<Failure>): Model
    decreases |fs|
  {
    if fs == [] then m else Failures(Reselect(m, key, x, fs[0].cooldown, fs[0].now, fs[0].u).0, key, x, fs[1..])
  }

  /** Any number of failures of `x` after the conversation moved to a healthy `b` change nothing
      but the mark on `x`: same row, same Failovers, while `b` does not cool. */
  lemma {:induction false} RepeatedFailuresAreNoOps(m: Model, key: string, x: string, fs: seq<Failure>, b: string)
    requires key != "" && key in m.pool.bindings && m.pool.bindings[key].member == b && b != x
    requires forall i | 0 <= i < |fs| :: fs[i].cooldown > 0 && !Cooling(m.cooldowns, b, fs[i].now)
    ensures var m' := Failures(m, key, x, fs);
      m'.pool == m.pool && m'.stats == m.stats && m'.cooldowns - {x} == m.cooldowns - {x}
    ensures forall i | 0 <= i < |fs| ::
      Reselect(Failures(m, key, x, fs[..i]), key, x, fs[i].cooldown, fs[i].now, fs[i].u).1 == b
    decreases |fs|
  {
    if fs != [] {
      var m1 := Reselect(m, key, x, fs[0].cooldown, fs[0].now, fs[0].u).0;
      assert m1.cooldowns == m.cooldowns[x := fs[0].now + fs[0].cooldown];
      RepeatedFailuresAreNoOps(m1, key, x, fs[1..], b);
      forall i | 0 <= i < |fs|
        ensures Reselect(Failures(m, key, x, fs[..i]), key, x, fs[i].cooldown, fs[i].now, fs[i].u).1 == b
      {
        if i > 0 {
          assert fs[..i][0] == fs[0] && fs[..i][1..] == fs[1..][..i - 1] && fs[i] == fs[1..][i - 1];
        }
      }
    }
  }

  // ------------------------------------------------------------------- janitor timing

  /** A sweep at any earlier moment changes neither the credential, nor newlyBound, nor the error,
      nor what Hits and Misses count, and leaves a state that differs in dead rows only. */
  lemma SweepInvisibleToLookups(m: Model, ttl: int, sweptAt: int, key: string, now: int, u: Rand)
    requires Inv(m) && sweptAt <= now
    ensures var (a, out) := Select(Do(m, ttl, Sweep(sweptAt)).0, ttl, key, now, u);
      var (b, out') := Select(m, ttl, key, now, u);
      && out == out' && a.stats == b.stats
      && J.PoolAlike(a.pool, b.pool, ttl, sweptAt) && J.CoolAlike(a.cooldowns, b.cooldowns, sweptAt)
  {
    var s := Do(m, ttl, Sweep(sweptAt)).0;
    SectionKeeps(m, ttl, Sweep(sweptAt));
    SweptAlike(m, ttl, sweptAt);
    J.SelectAlike(s.pool, m.pool, m.pool.refs, s.cooldowns, m.cooldowns, ttl, sweptAt, key, now, false, u);
    SweptRow(m, ttl, sweptAt, key, now);
  }

  lemma SweptAlike(m: Model, ttl: int, sweptAt: int)
    ensures var s := Do(m, ttl, Sweep(sweptAt)).0;
      && J.PoolAlike(s.pool, m.pool, ttl, sweptAt) && J.CoolAlike(s.cooldowns, m.cooldowns, sweptAt)
      && s.stats == m.stats && s.pool.refs == m.pool.refs
  {
  }

  lemma SweptRow(m: Model, ttl: int, sweptAt: int, key: string, now: int)
    requires sweptAt <= now
    ensures HasRow(Do(m, ttl, Sweep(sweptAt)).0, ttl, key, now) <==> HasRow(m, ttl, key, now)
  {
  }

  /** The rebinding is the group engine's, whose membership test every row passes here. */
  lemma ReboundIsReselect(p: Pool, cds: Cooldowns, key: string, x: string, now: int, u: Rand)
    requires PoolInv(p, p.refs)
    ensures var r, s := Rebound(p, cds, key, x, now, u), ReselectIn(p, p.refs, cds, key, x, now, u);
      r.0 == s.0 && r.1 == s.1 && r.2 == s.2 && (r.3 <==> J.AlreadyMoved(p, p.refs, cds, key, x, now))
  {
  }

  /** Both rebindings found the conversation moved, or neither. */
  lemma MovedAlike(q: Pool, p: Pool, c: Cooldowns, d: Cooldowns, ttl: int, t: int, key: string, x: string, now: int,
                   u: Rand)
    requires PoolInv(q, q.refs) && PoolInv(p, p.refs) && J.PoolAlike(q, p, ttl, t) && J.CoolAlike(c, d, now)
    requires !J.ReadsDeadRow(p, d, ttl, t, key, x, now) && !J.ReadsDeadRow(q, c, ttl, t, key, x, now)
    ensures Rebound(q, c, key, x, now, u).3 == Rebound(p, d, key, x, now, u).3
  {
    ReboundIsReselect(q, c, key, x, now, u);
    ReboundIsReselect(p, d, key, x, now, u);
    J.PoolAlikeFlip(q, p, ttl, t);
    J.CoolAlikeFlip(c, d, now);
    if J.AlreadyMoved(q, q.refs, c, key, x, now) {
      J.AlreadyMovedAlike(q, p, q.refs, c, d, ttl, t, key, x, now);
    } else if J.AlreadyMoved(p, p.refs, d, key, x, now) {
      J.AlreadyMovedAlike(p, q, p.refs, d, c, ttl, t, key, x, now);
    }
  }

  /** Same answer, same ticks, and no difference but in rows that are dead at `t`. */
  ghost predicate SameFailover(a: (Model, string, Mode), b: (Model, string, Mode), ttl: int, t: int) {
    && a.1 == b.1 && a.2 == b.2 && a.0.stats == b.0.stats
    && J.PoolAlike(a.0.pool, b.0.pool, ttl, t) && J.CoolAlike(a.0.cooldowns, b.0.cooldowns, t)
  }

  lemma SweptModel(m: Model, ttl: int, sweptAt: int) returns (s: Model)
    requires Inv(m)
    ensures s == Do(m, ttl, Sweep(sweptAt)).0 && Inv(s) && s.stats == m.stats
    ensures s.pool == Without(m.pool, Idle(m.pool.bindings, ttl, sweptAt)) && s.pool.refs == m.pool.refs
    ensures J.PoolAlike(s.pool, m.pool, ttl, sweptAt) && J.CoolAlike(s.cooldowns, m.cooldowns, sweptAt)
  {
    s := Do(m, ttl, Sweep(sweptAt)).0;
    SectionKeeps(m, ttl, Sweep(sweptAt));
    SweptAlike(m, ttl, sweptAt);
  }

  /** A failover sees an earlier sweep exactly when its already-moved test reads a row that was dead then:
      that test does not look at idleness. */
  lemma SweepVisibleToFailoverIff(m: Model, ttl: int, sweptAt: int, key: string, x: string, until: int, now: int,
                                  u: Rand)
    requires Inv(m) && sweptAt <= now && ttl >= 0
    ensures SameFailover(ReselectUntil(Do(m, ttl, Sweep(sweptAt)).0, key, x, until, now, u),
                         ReselectUntil(m, key, x, until, now, u), ttl, now)
      <==> !J.ReadsDeadRow(m.pool, m.cooldowns[x := until], ttl, sweptAt, key, x, now)
  {
    var s := SweptModel(m, ttl, sweptAt);
    var c, d := s.cooldowns[x := until], m.cooldowns[x := until];
    J.RebindSeesSweepIff(m.pool.refs, s.cooldowns, m.cooldowns, s.pool, m.pool, ttl, sweptAt, key, x, until, now, u);
    ReboundIsReselect(s.pool, c, key, x, now, u);
    ReboundIsReselect(m.pool, d, key, x, now, u);
    J.MarkAlike(s.cooldowns, m.cooldowns, sweptAt, x, until);
    J.CoolAlikeLater(c, d, sweptAt, now);
    if !J.ReadsDeadRow(m.pool, d, ttl, sweptAt, key, x, now) {
      MovedAlike(s.pool, m.pool, c, d, ttl, sweptAt, key, x, now, u);
    }
  }

  // ------------------------------------------------------------- cooldown by failure class

  const MINUTE: int := 60_000_000_000
  const DEFAULT_COOLDOWN: int := MINUTE
  const DEFAULT_QUOTA_COOLDOWN: int := 15 * MINUTE
  const QUOTA_FLOOR: int := MINUTE
  const QUOTA_CEILING: int := 24 * 60 * MINUTE

  datatype FailureClass = RateLimit | Quota

  function Max(a: int, b: int): int {
    if a < b then b else a
  }

  function Min(a: int, b: int): int {
    if a < b then a else b
  }

  class CooldownPolicy {
    var defaultCooldown: int
    var quotaCooldown: int

    ghost predicate Valid()
      reads this
    {
      defaultCooldown > 0 && QUOTA_FLOOR <= quotaCooldown <= QUOTA_CEILING
    }

    constructor (cooldown: int)
      ensures Valid() && quotaCooldown == 900_000_000_000
      ensures defaultCooldown == if cooldown > 0 then cooldown else 60_000_000_000
    {
      defaultCooldown := if cooldown <= 0 then DEFAULT_COOLDOWN else cooldown;
      quotaCooldown := DEFAULT_QUOTA_COOLDOWN;
    }

    /** Whatever a configuration says, the stored value stays inside the documented window, one minute to a
        day in nanoseconds, and is the nearest point of it; fifteen minutes without one. */
    method SetQuotaCooldown(d: int)
      modifies this`quotaCooldown
      ensures 60_000_000_000 <= quotaCooldown <= 86_400_000_000_000
      ensures d <= 0 ==> quotaCooldown == 900_000_000_000
      ensures 60_000_000_000 <= d <= 86_400_000_000_000 ==> quotaCooldown == d
      ensures 0 < d < 60_000_000_000 ==> quotaCooldown == 60_000_000_000
      ensures d > 86_400_000_000_000 ==> quotaCooldown == 86_400_000_000_000
    {
      var v := if d <= 0 then DEFAULT_QUOTA_COOLDOWN else d;
      if v < QUOTA_FLOOR {
        v := QUOTA_FLOOR;
      }
      if v > QUOTA_CEILING {
        v := QUOTA_CEILING;
      }
      quotaCooldown := v;
    }

    /** The seeded cooldown is always positive. A quota cooldown is the larger of the configured value and
        what the upstream asked for within the window, so it stays in the window; a rate-limit cooldown
        honours the upstream verbatim. */
    method CooldownFor(class_: FailureClass, retryAfter: int) returns (cd: int)
      requires Valid()
      ensures cd > 0
      ensures class_ == Quota ==> quotaCooldown <= cd <= QUOTA_CEILING
      ensures class_ == Quota ==> cd == Max(quotaCooldown, Min(Max(retryAfter, 0), 86_400_000_000_000))
      ensures class_ == RateLimit ==> cd == if retryAfter > 0 then retryAfter else defaultCooldown
    {
      var wait := if retryAfter < 0 then 0 else retryAfter;
      if class_ == Quota {
        if wait > QUOTA_CEILING {
          wait := QUOTA_CEILING;
        }
        return if wait > quotaCooldown then wait else quotaCooldown;
      }
      return if wait > 0 then wait else defaultCooldown;
    }
  }
}
