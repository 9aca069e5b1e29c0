/** Janitor timing and selection. Two group states are alike at time t when they differ only in
    rows that are dead at t; the janitor removes exactly such rows. Lookups of both pools cannot
    tell alike states apart. Exclusions can, in exactly one situation. */
module GroupJanitor {
  import opened Options
  import opened WeightedPool
  import opened StickyPool
  import opened GroupSections

  /** Whole operations, each run without interruption, from the simple (fast-path free) account
      of what it computes. */
  datatype Op =
    | Get(key: string, now: int, u: Rand)
    | GetBackup(key: string, now: int, u: Rand)
    | Fail(key: string, excluded: string, cooldown: int, now: int, u: Rand)
    | FailBackup(key: string, excluded: string, cooldown: int, now: int, u: Rand)
    | Configure(refs: seq<MemberRef>)
    | Janitor(at: int)

  datatype Answer = Selected(out: Outcome) | Moved(member: string, mode: Mode) | Done

  ghost predicate LegalOp(op: Op) {
    match op
    case Configure(refs) => refs != [] && !InRefs(refs, "")
    case Fail(_, _, cd, _, _) => cd > 0
    case FailBackup(_, _, cd, _, _) => cd > 0
    case _ => true
  }

  ghost function GetNow(s: State, ttl: int, key: string, now: int, u: Rand): (State, Outcome)
    requires s.members != []
  {
    if |s.members| == 1 && !s.members[0].backupOnly then (s, Outcome(s.members[0].id, false, false, false))
    else
      var (p, out) := SelectIn(s.def, s.members, s.cooldowns, ttl, key, now, false, u);
      (s.(def := p), out)
  }

  ghost function GetBackupNow(s: State, ttl: int, key: string, now: int, u: Rand): (State, Outcome) {
    if !Selectable(s.bak.refs) then (s, Outcome("", false, false, true))
    else
      var (p, out) := SelectIn(s.bak, s.members, s.cooldowns, ttl, key, now, false, u);
      (s.(bak := p), out)
  }

  ghost function FailNow(s: State, key: string, x: string, cd: int, now: int, u: Rand): (State, string, Mode) {
    FailUntil(s, key, x, now + cd, now, u)
  }

  /** A failover that marks the excluded member as cooling until the given moment. */
  ghost function FailUntil(s: State, key: string, x: string, until: int, now: int, u: Rand): (State, string, Mode) {
    if |s.members| <= 1 then (s, "", ReselectNone) else MoveDefault(s, key, x, until, now, u)
  }

  ghost function FailBackupNow(s: State, key: string, x: string, cd: int, now: int, u: Rand): (State, string, Mode) {
    FailBackupUntil(s, key, x, now + cd, now, u)
  }

  ghost function FailBackupUntil(s: State, key: string, x: string, until: int, now: int, u: Rand)
    : (State, string, Mode)
  {
    if !Selectable(s.bak.refs) then (s, "", ReselectNone)
    else if |s.bak.refs| == 1 then (s.(cooldowns := s.cooldowns[x := until]), "", ReselectNone)
    else MoveBackup(s, key, x, until, now, u)
  }

  /** The mark and the rebinding, in one section. */
  ghost function MoveDefault(s: State, key: string, x: string, until: int, now: int, u: Rand): (State, string, Mode) {
    var (p, m, mode) := ReselectIn(s.def, s.members, s.cooldowns[x := until], key, x, now, u);
    (s.(def := p, cooldowns := s.cooldowns[x := until]), m, mode)
  }

  ghost function MoveBackup(s: State, key: string, x: string, until: int, now: int, u: Rand): (State, string, Mode) {
    var (p, m, mode) := ReselectIn(s.bak, s.members, s.cooldowns[x := until], key, x, now, u);
    (s.(bak := p, cooldowns := s.cooldowns[x := until]), m, mode)
  }

  ghost function Perform(s: State, ttl: int, op: Op): (State, Answer)
    requires s.members != []
  {
    match op
    case Get(key, now, u) => var (s', out) := GetNow(s, ttl, key, now, u); (s', Selected(out))
    case GetBackup(key, now, u) => var (s', out) := GetBackupNow(s, ttl, key, now, u); (s', Selected(out))
    case Fail(key, x, cd, now, u) => var (s', m, mode) := FailNow(s, key, x, cd, now, u); (s', Moved(m, mode))
    case FailBackup(key, x, cd, now, u) =>
      var (s', m, mode) := FailBackupNow(s, key, x, cd, now, u); (s', Moved(m, mode))
    case Configure(refs) => (Reconfigure(s, refs), Done)
    case Janitor(at) => (Swept(s, ttl, at), Done)
  }

  // -------------------------------------------------------------------- likeness

  ghost function RowAt(p: Pool, ttl: int, t: int, key: string): Option<Binding> {
    if key in p.bindings && !Expired(p.bindings[key], ttl, t) then Some(p.bindings[key]) else None
  }

  ghost predicate PoolAlike(p: Pool, q: Pool, ttl: int, t: int) {
    p.refs == q.refs && forall k :: RowAt(p, ttl, t, k) == RowAt(q, ttl, t, k)
  }

  ghost predicate CoolAlike(c: Cooldowns, d: Cooldowns, t: int) {
    forall id :: (Cooling(c, id, t) <==> Cooling(d, id, t)) && (Cooling(c, id, t) ==> c[id] == d[id])
  }

  /** The same group up to rows that are dead at `t`. */
  ghost predicate Alike(a: State, b: State, ttl: int, t: int) {
    && a.members == b.members && CoolAlike(a.cooldowns, b.cooldowns, t)
    && PoolAlike(a.def, b.def, ttl, t) && PoolAlike(a.bak, b.bak, ttl, t)
  }

  lemma CoolAlikeLater(c: Cooldowns, d: Cooldowns, t: int, now: int)
    requires CoolAlike(c, d, t) && t <= now
    ensures CoolAlike(c, d, now) && CoolingIds(c, now) == CoolingIds(d, now)
  {
    forall id
      ensures (Cooling(c, id, now) <==> Cooling(d, id, now)) && (Cooling(c, id, now) ==> c[id] == d[id])
      ensures id in CoolingIds(c, now) <==> id in CoolingIds(d, now)
    {
      assert Cooling(c, id, t) <==> Cooling(d, id, t);
    }
  }

  lemma PoolAlikeLater(p: Pool, q: Pool, ttl: int, t: int, now: int)
    requires PoolAlike(p, q, ttl, t) && t <= now
    ensures PoolAlike(p, q, ttl, now)
  {
    forall k ensures RowAt(p, ttl, now, k) == RowAt(q, ttl, now, k) {
      assert RowAt(p, ttl, t, k) == RowAt(q, ttl, t, k);
    }
  }

  lemma AlikeLater(a: State, b: State, ttl: int, t: int, now: int)
    requires Alike(a, b, ttl, t) && t <= now
    ensures Alike(a, b, ttl, now)
  {
    CoolAlikeLater(a.cooldowns, b.cooldowns, t, now);
    PoolAlikeLater(a.def, b.def, ttl, t, now);
    PoolAlikeLater(a.bak, b.bak, ttl, t, now);
  }

  lemma FirstToExpireUnique(refs: seq<MemberRef>, c: Cooldowns, i: int, j: int)
    requires ExpiresFirst(refs, c, |refs|, i) && ExpiresFirst(refs, c, |refs|, j)
    ensures i == j
  {
  }

  lemma SoonestAlike(refs: seq<MemberRef>, c: Cooldowns, d: Cooldowns, now: int)
    requires CoolAlike(c, d, now)
    ensures Soonest(refs, c, now) == Soonest(refs, d, now)
  {
    assert AllCooling(refs, c, now) <==> AllCooling(refs, d, now);
    if refs != [] && AllCooling(refs, c, now) {
      assert forall k | 0 <= k < |refs| :: Cooling(c, refs[k].id, now) && Cooling(d, refs[k].id, now);
      forall i | ExpiresFirst(refs, c, |refs|, i) ensures ExpiresFirst(refs, d, |refs|, i) {
      }
      forall i | ExpiresFirst(refs, d, |refs|, i) ensures ExpiresFirst(refs, c, |refs|, i) {
      }
      FirstToExpireExists(refs, c, |refs|);
      forall i, j | ExpiresFirst(refs, c, |refs|, i) && ExpiresFirst(refs, c, |refs|, j) ensures i == j {
        FirstToExpireUnique(refs, c, i, j);
      }
    }
  }

  /** The janitor only removes dead rows. */
  lemma SweepIsAlike(s: State, ttl: int, t: int)
    ensures Alike(Swept(s, ttl, t), s, ttl, t)
  {
  }

  // ------------------------------------------------------------ lookups cannot tell

  lemma BindAlike(p: Pool, q: Pool, ttl: int, t: int, key: string, m: string, now: int)
    requires PoolAlike(p, q, ttl, t)
    ensures PoolAlike(Bind(p, key, m, now), Bind(q, key, m, now), ttl, t)
  {
    forall k ensures RowAt(Bind(p, key, m, now), ttl, t, k) == RowAt(Bind(q, key, m, now), ttl, t, k) {
      assert RowAt(p, ttl, t, k) == RowAt(q, ttl, t, k);
    }
  }

  lemma DropAlike(p: Pool, q: Pool, ttl: int, t: int, key: string)
    requires PoolAlike(p, q, ttl, t)
    ensures PoolAlike(Drop(p, key), Drop(q, key), ttl, t)
  {
    forall k ensures RowAt(Drop(p, key), ttl, t, k) == RowAt(Drop(q, key), ttl, t, k) {
      assert RowAt(p, ttl, t, k) == RowAt(q, ttl, t, k);
    }
  }

  /** A row that can be served later than `t` is the same in both. */
  lemma LiveAlike(p: Pool, q: Pool, members: seq<MemberRef>, c: Cooldowns, d: Cooldowns, ttl: int, t: int,
                  key: string, now: int)
    requires PoolAlike(p, q, ttl, t) && CoolAlike(c, d, now) && t <= now
    requires key in p.bindings && Live(p.bindings[key], members, c, ttl, now)
    ensures key in q.bindings && q.bindings[key] == p.bindings[key] && Live(q.bindings[key], members, d, ttl, now)
  {
    assert RowAt(p, ttl, t, key) == RowAt(q, ttl, t, key);
    assert Cooling(c, p.bindings[key].member, now) <==> Cooling(d, p.bindings[key].member, now);
  }

  lemma CoolAlikeFlip(c: Cooldowns, d: Cooldowns, t: int)
    requires CoolAlike(c, d, t)
    ensures CoolAlike(d, c, t)
  {
    forall id ensures (Cooling(d, id, t) <==> Cooling(c, id, t)) && (Cooling(d, id, t) ==> c[id] == d[id]) {
      assert Cooling(c, id, t) <==> Cooling(d, id, t);
    }
  }

  lemma SelectAlike(p: Pool, q: Pool, members: seq<MemberRef>, c: Cooldowns, d: Cooldowns, ttl: int, t: int,
                    key: string, now: int, carried: bool, u: Rand)
    requires PoolAlike(p, q, ttl, t) && CoolAlike(c, d, t) && t <= now
    requires PoolInv(p, members) && PoolInv(q, members)
    ensures var x := SelectIn(p, members, c, ttl, key, now, carried, u);
      var y := SelectIn(q, members, d, ttl, key, now, carried, u);
      x.1 == y.1 && PoolAlike(x.0, y.0, ttl, t)
  {
    CoolAlikeLater(c, d, t, now);
    CoolAlikeFlip(c, d, now);
    if key in p.bindings && Live(p.bindings[key], members, c, ttl, now) {
      LiveAlike(p, q, members, c, d, ttl, t, key, now);
      BindAlike(p, q, ttl, t, key, p.bindings[key].member, now);
    } else {
      if key in q.bindings && Live(q.bindings[key], members, d, ttl, now) {
        PoolAlikeFlip(p, q, ttl, t);
        LiveAlike(q, p, members, d, c, ttl, t, key, now);
      }
      SelectMissAlike(p, q, members, c, d, ttl, t, key, now, carried, u);
    }
  }

  lemma SelectMissAlike(p: Pool, q: Pool, members: seq<MemberRef>, c: Cooldowns, d: Cooldowns, ttl: int, t: int,
                        key: string, now: int, carried: bool, u: Rand)
    requires PoolAlike(p, q, ttl, t) && CoolAlike(c, d, now) && CoolingIds(c, now) == CoolingIds(d, now)
    requires PoolInv(p, members) && PoolInv(q, members)
    requires !(key in p.bindings && Live(p.bindings[key], members, c, ttl, now))
    requires !(key in q.bindings && Live(q.bindings[key], members, d, ttl, now))
    ensures var x := SelectIn(p, members, c, ttl, key, now, carried, u);
      var y := SelectIn(q, members, d, ttl, key, now, carried, u);
      x.1 == y.1 && PoolAlike(x.0, y.0, ttl, t)
  {
    SoonestAlike(p.refs, c, d, now);
    DropAlike(p, q, ttl, t, key);
    BindAlike(Drop(p, key), Drop(q, key), ttl, t, key, PickHealthy(p.refs, CoolingIds(c, now), u), now);
  }

  // ------------------------------------------------------- exclusions sometimes can

  /** The one thing an exclusion reads that a lookup would not: a row that is idle-expired at `t`,
      still names a healthy member, and names another member than the excluded one. */
  ghost predicate ReadsDeadRow(p: Pool, cds: Cooldowns, ttl: int, t: int, key: string, x: string, now: int) {
    && key != "" && key in p.bindings && Expired(p.bindings[key], ttl, t)
    && p.bindings[key].member != x && !Cooling(cds, p.bindings[key].member, now)
  }

  ghost predicate AlreadyMoved(p: Pool, members: seq<MemberRef>, cds: Cooldowns, key: string, x: string, now: int) {
    && key != "" && key in p.bindings && p.bindings[key].member != x
    && !Cooling(cds, p.bindings[key].member, now) && InRefs(members, p.bindings[key].member)
  }

  lemma AlreadyMovedAlike(p: Pool, q: Pool, members: seq<MemberRef>, c: Cooldowns, d: Cooldowns, ttl: int, t: int,
                          key: string, x: string, now: int)
    requires PoolAlike(p, q, ttl, t) && CoolAlike(c, d, now)
    requires AlreadyMoved(p, members, c, key, x, now) && !ReadsDeadRow(p, c, ttl, t, key, x, now)
    ensures AlreadyMoved(q, members, d, key, x, now) && q.bindings[key] == p.bindings[key]
  {
    assert RowAt(p, ttl, t, key) == RowAt(q, ttl, t, key);
    assert Cooling(c, p.bindings[key].member, now) <==> Cooling(d, p.bindings[key].member, now);
  }

  lemma ReselectAlike(p: Pool, q: Pool, members: seq<MemberRef>, c: Cooldowns, d: Cooldowns, ttl: int, t: int,
                      key: string, x: string, now: int, u: Rand)
    requires PoolAlike(p, q, ttl, t) && CoolAlike(c, d, t) && t <= now
    requires !ReadsDeadRow(p, c, ttl, t, key, x, now) && !ReadsDeadRow(q, d, ttl, t, key, x, now)
    ensures var a := ReselectIn(p, members, c, key, x, now, u);
      var b := ReselectIn(q, members, d, key, x, now, u);
      a.1 == b.1 && a.2 == b.2 && PoolAlike(a.0, b.0, ttl, t)
  {
    CoolAlikeLater(c, d, t, now);
    CoolAlikeFlip(c, d, now);
    if AlreadyMoved(p, members, c, key, x, now) {
      AlreadyMovedAlike(p, q, members, c, d, ttl, t, key, x, now);
    } else {
      if AlreadyMoved(q, members, d, key, x, now) {
        AlreadyMovedAlike(q, p, members, d, c, ttl, t, key, x, now);
      }
      SoonestAlike(p.refs, c, d, now);
      BindAlike(p, q, ttl, t, key, PickHealthy(p.refs, CoolingIds(c, now), u), now);
    }
  }

  /** In that situation the two do differ, whatever the draw: the unswept pool answers with the
      dead row and leaves it dead, the swept one answers otherwise or stores a fresh row. */
  lemma DeadRowIsVisible(p: Pool, members: seq<MemberRef>, c: Cooldowns, d: Cooldowns, ttl: int, t: int,
                         key: string, x: string, now: int, u: Rand)
    requires t <= now && ttl >= 0 && PoolInv(p, members) && ReadsDeadRow(p, c, ttl, t, key, x, now)
    ensures var a := ReselectIn(p, members, c, key, x, now, u);
      var b := ReselectIn(Without(p, Idle(p.bindings, ttl, t)), members, d, key, x, now, u);
      !(a.1 == b.1 && a.2 == b.2 && PoolAlike(a.0, b.0, ttl, now))
  {
    var a := ReselectIn(p, members, c, key, x, now, u);
    var b := ReselectIn(Without(p, Idle(p.bindings, ttl, t)), members, d, key, x, now, u);
    if b.2 == ReselectHealthy {
      assert RowAt(a.0, ttl, now, key) == None;
      assert RowAt(b.0, ttl, now, key) == Some(Binding(b.1, now));
    }
  }

  // -------------------------------------------------------------------- one operation

  lemma MarkAlike(c: Cooldowns, d: Cooldowns, t: int, x: string, until: int)
    requires CoolAlike(c, d, t)
    ensures CoolAlike(c[x := until], d[x := until], t)
  {
    var c', d' := c[x := until], d[x := until];
    forall id ensures (Cooling(c', id, t) <==> Cooling(d', id, t)) && (Cooling(c', id, t) ==> c'[id] == d'[id]) {
      assert Cooling(c, id, t) <==> Cooling(d, id, t);
    }
  }

  lemma ChangeAlike(p: Pool, q: Pool, ttl: int, t: int, refs: seq<MemberRef>, side: seq<MemberRef>)
    requires PoolAlike(p, q, ttl, t)
    ensures PoolAlike(Without(p.(refs := side), Orphans(p.bindings, refs)),
        Without(q.(refs := side), Orphans(q.bindings, refs)), ttl, t)
  {
    var p' := Without(p.(refs := side), Orphans(p.bindings, refs));
    var q' := Without(q.(refs := side), Orphans(q.bindings, refs));
    forall k ensures RowAt(p', ttl, t, k) == RowAt(q', ttl, t, k) {
      assert RowAt(p, ttl, t, k) == RowAt(q, ttl, t, k);
    }
  }

  ghost predicate TimeFits(op: Op, t: int) {
    match op
    case Get(_, now, _) => t <= now
    case GetBackup(_, now, _) => t <= now
    case Fail(_, _, _, now, _) => t <= now
    case FailBackup(_, _, _, now, _) => t <= now
    case Configure(_) => true
    case Janitor(at) => t <= at
  }

  ghost function TimeAfter(op: Op, t: int): int {
    match op
    case Get(_, now, _) => now
    case GetBackup(_, now, _) => now
    case Fail(_, _, _, now, _) => now
    case FailBackup(_, _, _, now, _) => now
    case Configure(_) => t
    case Janitor(at) => at
  }

  /** No exclusion of the operation reads a dead row of this state. */
  ghost predicate Discreet(s: State, ttl: int, t: int, op: Op) {
    && (op.Fail? ==>
        !ReadsDeadRow(s.def, s.cooldowns[op.excluded := op.now + op.cooldown], ttl, t, op.key, op.excluded, op.now))
    && (op.FailBackup? ==>
        !ReadsDeadRow(s.bak, s.cooldowns[op.excluded := op.now + op.cooldown], ttl, t, op.key, op.excluded, op.now))
  }

  ghost predicate SameEffect(a: State, b: State, ttl: int, t: int, op: Op)
    requires a.members != [] && b.members != []
  {
    Perform(a, ttl, op).1 == Perform(b, ttl, op).1 && Alike(Perform(a, ttl, op).0, Perform(b, ttl, op).0, ttl, t)
  }

  lemma LookupsAlike(a: State, b: State, ttl: int, t: int, op: Op)
    requires Inv(a) && Inv(b) && Alike(a, b, ttl, t) && TimeFits(op, t) && (op.Get? || op.GetBackup?)
    ensures SameEffect(a, b, ttl, t, op)
  {
    if op.Get? {
      SelectAlike(a.def, b.def, a.members, a.cooldowns, b.cooldowns, ttl, t, op.key, op.now, false, op.u);
    } else {
      SelectAlike(a.bak, b.bak, a.members, a.cooldowns, b.cooldowns, ttl, t, op.key, op.now, false, op.u);
    }
  }

  lemma FailAlike(a: State, b: State, ttl: int, t: int, key: string, x: string, cd: int, now: int, u: Rand)
    requires Alike(a, b, ttl, t) && t <= now
    requires !ReadsDeadRow(a.def, a.cooldowns[x := now + cd], ttl, t, key, x, now)
    requires !ReadsDeadRow(b.def, b.cooldowns[x := now + cd], ttl, t, key, x, now)
    ensures var p, q := FailNow(a, key, x, cd, now, u), FailNow(b, key, x, cd, now, u);
      p.1 == q.1 && p.2 == q.2 && Alike(p.0, q.0, ttl, t)
  {
    MarkAlike(a.cooldowns, b.cooldowns, t, x, now + cd);
    ReselectAlike(a.def, b.def, a.members, a.cooldowns[x := now + cd], b.cooldowns[x := now + cd], ttl, t, key, x,
        now, u);
  }

  lemma FailBackupAlike(a: State, b: State, ttl: int, t: int, key: string, x: string, cd: int, now: int, u: Rand)
    requires Alike(a, b, ttl, t) && t <= now
    requires !ReadsDeadRow(a.bak, a.cooldowns[x := now + cd], ttl, t, key, x, now)
    requires !ReadsDeadRow(b.bak, b.cooldowns[x := now + cd], ttl, t, key, x, now)
    ensures var p, q := FailBackupNow(a, key, x, cd, now, u), FailBackupNow(b, key, x, cd, now, u);
      p.1 == q.1 && p.2 == q.2 && Alike(p.0, q.0, ttl, t)
  {
    MarkAlike(a.cooldowns, b.cooldowns, t, x, now + cd);
    ReselectAlike(a.bak, b.bak, a.members, a.cooldowns[x := now + cd], b.cooldowns[x := now + cd], ttl, t, key, x,
        now, u);
  }

  /** Alike states answer alike and stay alike. */
  lemma PerformAlike(a: State, b: State, ttl: int, t: int, op: Op)
    requires Inv(a) && Inv(b) && Alike(a, b, ttl, t) && TimeFits(op, t) && !op.Janitor?
    requires Discreet(a, ttl, t, op) && Discreet(b, ttl, t, op)
    ensures SameEffect(a, b, ttl, t, op)
  {
    match op {
      case Get(_, _, _) => LookupsAlike(a, b, ttl, t, op);
      case GetBackup(_, _, _) => LookupsAlike(a, b, ttl, t, op);
      case Fail(key, x, cd, now, u) => FailAlike(a, b, ttl, t, key, x, cd, now, u);
      case FailBackup(key, x, cd, now, u) => FailBackupAlike(a, b, ttl, t, key, x, cd, now, u);
      case Configure(refs) =>
        ChangeAlike(a.def, b.def, ttl, t, refs, Side(refs, false));
        ChangeAlike(a.bak, b.bak, ttl, t, refs, Side(refs, true));
    }
  }

  /** One sweep at any earlier moment: a lookup of either pool with the same draw returns the same
      member, the same newlyBound and the same error on the swept and on the unswept state, and
      the states it leaves differ in dead rows only. */
  lemma SweepInvisibleToLookups(s: State, ttl: int, sweptAt: int, op: Op)
    requires Inv(s) && (op.Get? || op.GetBackup?) && sweptAt <= op.now
    ensures Inv(Swept(s, ttl, sweptAt)) && SameEffect(Swept(s, ttl, sweptAt), s, ttl, sweptAt, op)
  {
    SweepKeeps(s, ttl, sweptAt);
    SweepIsAlike(s, ttl, sweptAt);
    LookupsAlike(Swept(s, ttl, sweptAt), s, ttl, sweptAt, op);
  }

  /** A rebinding of one pool sees a sweep exactly when its shortcut reads a dead row. */
  lemma RebindSeesSweepIff(members: seq<MemberRef>, c: Cooldowns, d: Cooldowns, q: Pool, p: Pool, ttl: int,
                           sweptAt: int, key: string, x: string, until: int, now: int, u: Rand)
    requires PoolInv(p, members) && sweptAt <= now && ttl >= 0
    requires q == Without(p, Idle(p.bindings, ttl, sweptAt)) && CoolAlike(c, d, sweptAt)
    ensures SameRebind(ReselectIn(q, members, c[x := until], key, x, now, u),
                       ReselectIn(p, members, d[x := until], key, x, now, u), ttl, now)
      <==> !ReadsDeadRow(p, d[x := until], ttl, sweptAt, key, x, now)
  {
    var c', d' := c[x := until], d[x := until];
    MarkAlike(c, d, sweptAt, x, until);
    var a, b := ReselectIn(q, members, c', key, x, now, u), ReselectIn(p, members, d', key, x, now, u);
    if !ReadsDeadRow(p, d', ttl, sweptAt, key, x, now) {
      ReselectAlike(q, p, members, c', d', ttl, sweptAt, key, x, now, u);
      PoolAlikeLater(a.0, b.0, ttl, sweptAt, now);
    } else {
      DeadRowIsVisible(p, members, d', c', ttl, sweptAt, key, x, now, u);
      if PoolAlike(a.0, b.0, ttl, now) {
        PoolAlikeFlip(a.0, b.0, ttl, now);
      }
    }
  }

  /** Alike states stay alike under new pools and cooldowns exactly when those are alike. */
  lemma PartsAlike(a: State, b: State, def: Pool, def': Pool, bak: Pool, bak': Pool, c: Cooldowns, d: Cooldowns,
                   ttl: int, t: int)
    requires a.members == b.members && CoolAlike(c, d, t)
    ensures Alike(State(a.members, def, bak, c), State(b.members, def', bak', d), ttl, t)
      <==> PoolAlike(def, def', ttl, t) && PoolAlike(bak, bak', ttl, t)
  {
  }

  ghost predicate SameMove(p: (State, string, Mode), q: (State, string, Mode), ttl: int, t: int) {
    p.1 == q.1 && p.2 == q.2 && Alike(p.0, q.0, ttl, t)
  }

  ghost predicate SameRebind(p: (Pool, string, Mode), q: (Pool, string, Mode), ttl: int, t: int) {
    p.1 == q.1 && p.2 == q.2 && PoolAlike(p.0, q.0, ttl, t)
  }

  /** The rebinding of each pool after the mark. */
  ghost function DefRebind(s: State, key: string, x: string, until: int, now: int, u: Rand): (Pool, string, Mode) {
    ReselectIn(s.def, s.members, s.cooldowns[x := until], key, x, now, u)
  }

  ghost function BakRebind(s: State, key: string, x: string, until: int, now: int, u: Rand): (Pool, string, Mode) {
    ReselectIn(s.bak, s.members, s.cooldowns[x := until], key, x, now, u)
  }

  lemma SweptLater(s: State, ttl: int, sweptAt: int, now: int) returns (s': State)
    requires sweptAt <= now
    ensures s' == Swept(s, ttl, sweptAt) && Alike(s', s, ttl, now)
    ensures s'.def == Without(s.def, Idle(s.def.bindings, ttl, sweptAt))
    ensures s'.bak == Without(s.bak, Idle(s.bak.bindings, ttl, sweptAt))
    ensures s'.members == s.members && CoolAlike(s'.cooldowns, s.cooldowns, sweptAt)
  {
    s' := Swept(s, ttl, sweptAt);
    SweepIsAlike(s, ttl, sweptAt);
    AlikeLater(s', s, ttl, sweptAt, now);
  }

  /** States alike differ after the move of a pool exactly when its rebindings do. */
  lemma MoveDefaultIsRebind(a: State, b: State, ttl: int, key: string, x: string, until: int, now: int, u: Rand)
    requires Alike(a, b, ttl, now)
    ensures SameMove(MoveDefault(a, key, x, until, now, u), MoveDefault(b, key, x, until, now, u), ttl, now)
      <==> SameRebind(DefRebind(a, key, x, until, now, u), DefRebind(b, key, x, until, now, u), ttl, now)
  {
    MarkAlike(a.cooldowns, b.cooldowns, now, x, until);
    PartsAlike(a, b, DefRebind(a, key, x, until, now, u).0, DefRebind(b, key, x, until, now, u).0, a.bak, b.bak,
               a.cooldowns[x := until], b.cooldowns[x := until], ttl, now);
  }

  /** States alike differ after the move of a pool exactly when its rebindings do. */
  lemma MoveBackupIsRebind(a: State, b: State, ttl: int, key: string, x: string, until: int, now: int, u: Rand)
    requires Alike(a, b, ttl, now)
    ensures SameMove(MoveBackup(a, key, x, until, now, u), MoveBackup(b, key, x, until, now, u), ttl, now)
      <==> SameRebind(BakRebind(a, key, x, until, now, u), BakRebind(b, key, x, until, now, u), ttl, now)
  {
    MarkAlike(a.cooldowns, b.cooldowns, now, x, until);
    PartsAlike(a, b, a.def, b.def, BakRebind(a, key, x, until, now, u).0, BakRebind(b, key, x, until, now, u).0,
               a.cooldowns[x := until], b.cooldowns[x := until], ttl, now);
  }

  /** Short of its guard an exclusion marks at most. */
  lemma MarkKeepsAlike(a: State, b: State, ttl: int, x: string, until: int, now: int)
    requires Alike(a, b, ttl, now)
    ensures Alike(a.(cooldowns := a.cooldowns[x := until]), b.(cooldowns := b.cooldowns[x := until]), ttl, now)
  {
    MarkAlike(a.cooldowns, b.cooldowns, now, x, until);
    PartsAlike(a, b, a.def, b.def, a.bak, b.bak, a.cooldowns[x := until], b.cooldowns[x := until], ttl, now);
  }

  lemma SweepVisibleToDefaultMoveIff(s: State, ttl: int, sweptAt: int, key: string, x: string, until: int, now: int,
                                     u: Rand)
    requires Inv(s) && sweptAt <= now && ttl >= 0
    ensures SameMove(MoveDefault(Swept(s, ttl, sweptAt), key, x, until, now, u), MoveDefault(s, key, x, until, now, u),
                     ttl, now)
      <==> !ReadsDeadRow(s.def, s.cooldowns[x := until], ttl, sweptAt, key, x, now)
  {
    var s' := SweptLater(s, ttl, sweptAt, now);
    RebindSeesSweepIff(s.members, s'.cooldowns, s.cooldowns, s'.def, s.def, ttl, sweptAt, key, x, until,
        now, u);
    MoveDefaultIsRebind(s', s, ttl, key, x, until, now, u);
  }

  lemma SweepVisibleToBackupMoveIff(s: State, ttl: int, sweptAt: int, key: string, x: string, until: int, now: int,
                                    u: Rand)
    requires Inv(s) && sweptAt <= now && ttl >= 0
    ensures SameMove(MoveBackup(Swept(s, ttl, sweptAt), key, x, until, now, u), MoveBackup(s, key, x, until, now, u),
                     ttl, now)
      <==> !ReadsDeadRow(s.bak, s.cooldowns[x := until], ttl, sweptAt, key, x, now)
  {
    var s' := SweptLater(s, ttl, sweptAt, now);
    RebindSeesSweepIff(s.members, s'.cooldowns, s.cooldowns, s'.bak, s.bak, ttl, sweptAt, key, x, until,
        now, u);
    MoveBackupIsRebind(s', s, ttl, key, x, until, now, u);
  }

  /** An exclusion sees a sweep exactly when it gets as far as the shortcut and that reads a dead row. */
  lemma SweepVisibleToExclusionIff(s: State, ttl: int, sweptAt: int, key: string, x: string, until: int, now: int,
                                   u: Rand)
    requires Inv(s) && sweptAt <= now && ttl >= 0
    ensures SameMove(FailUntil(Swept(s, ttl, sweptAt), key, x, until, now, u), FailUntil(s, key, x, until, now, u),
                     ttl, now)
      <==> !(|s.members| > 1 && ReadsDeadRow(s.def, s.cooldowns[x := until], ttl, sweptAt, key, x, now))
  {
    var s' := SweptLater(s, ttl, sweptAt, now);
    SweepVisibleToDefaultMoveIff(s, ttl, sweptAt, key, x, until, now, u);
  }

  /** The backup pool's exclusion likewise; it gets there with two or more backups. */
  lemma SweepVisibleToBackupExclusionIff(s: State, ttl: int, sweptAt: int, key: string, x: string, until: int, now: int,
                                         u: Rand)
    requires Inv(s) && sweptAt <= now && ttl >= 0
    ensures SameMove(FailBackupUntil(Swept(s, ttl, sweptAt), key, x, until, now, u),
                     FailBackupUntil(s, key, x, until, now, u), ttl, now)
      <==> !(Selectable(s.bak.refs) && |s.bak.refs| > 1
             && ReadsDeadRow(s.bak, s.cooldowns[x := until], ttl, sweptAt, key, x, now))
  {
    var s' := SweptLater(s, ttl, sweptAt, now);
    SweepVisibleToBackupMoveIff(s, ttl, sweptAt, key, x, until, now, u);
    MarkKeepsAlike(s', s, ttl, x, until, now);
  }

  lemma PoolAlikeFlip(p: Pool, q: Pool, ttl: int, t: int)
    requires PoolAlike(p, q, ttl, t)
    ensures PoolAlike(q, p, ttl, t)
  {
    forall k ensures RowAt(q, ttl, t, k) == RowAt(p, ttl, t, k) {
      assert RowAt(p, ttl, t, k) == RowAt(q, ttl, t, k);
    }
  }

  // -------------------------------------------------------------------- whole runs

  lemma LookupKeeps(s: State, ttl: int, op: Op)
    requires Inv(s) && (op.Get? || op.GetBackup?)
    ensures Inv(Perform(s, ttl, op).0)
  {
    var s' := Perform(s, ttl, op).0;
    if op.Get? {
      SelectKeeps(s.def, s.members, s.cooldowns, ttl, op.key, op.now, false, op.u);
      PoolsKeep(s, s'.def, s.bak, s.cooldowns);
    } else if Selectable(s.bak.refs) {
      SelectKeeps(s.bak, s.members, s.cooldowns, ttl, op.key, op.now, false, op.u);
      PoolsKeep(s, s.def, s'.bak, s.cooldowns);
    }
  }

  lemma FailureKeeps(s: State, ttl: int, op: Op)
    requires Inv(s) && (op.Fail? || op.FailBackup?)
    ensures Inv(Perform(s, ttl, op).0)
  {
    var s' := Perform(s, ttl, op).0;
    if op.Fail? {
      ReselectKeeps(s.def, s.members, s'.cooldowns, op.key, op.excluded, op.now, op.u);
      PoolsKeep(s, s'.def, s.bak, s'.cooldowns);
    } else {
      ReselectKeeps(s.bak, s.members, s'.cooldowns, op.key, op.excluded, op.now, op.u);
      PoolsKeep(s, s.def, s'.bak, s'.cooldowns);
    }
  }

  lemma PerformKeeps(s: State, ttl: int, op: Op)
    requires Inv(s) && LegalOp(op)
    ensures Inv(Perform(s, ttl, op).0)
  {
    match op {
      case Get(_, _, _) => LookupKeeps(s, ttl, op);
      case GetBackup(_, _, _) => LookupKeeps(s, ttl, op);
      case Fail(_, _, _, _, _) => FailureKeeps(s, ttl, op);
      case FailBackup(_, _, _, _, _) => FailureKeeps(s, ttl, op);
      case Configure(refs) => ChangeKeeps(s, refs);
      case Janitor(at) => SweepKeeps(s, ttl, at);
    }
  }

  /** The state after one operation; without `sweeping` the janitor does nothing. */
  ghost function After(s: State, ttl: int, op: Op, sweeping: bool): (s': State)
    requires Inv(s) && LegalOp(op)
    ensures Inv(s')
  {
    PerformKeeps(s, ttl, op);
    if op.Janitor? && !sweeping then s else Perform(s, ttl, op).0
  }

  /** What the callers of a run see. */
  ghost function Answers(s: State, ttl: int, ops: seq<Op>, sweeping: bool): seq<Answer>
    requires Inv(s) && forall i | 0 <= i < |ops| :: LegalOp(ops[i])
    decreases |ops|
  {
    if ops == [] then []
    else
      (if ops[0].Janitor? then [] else [Perform(s, ttl, ops[0]).1])
      + Answers(After(s, ttl, ops[0], sweeping), ttl, ops[1..], sweeping)
  }

  /** When each conversation was last looked up in this pool: its row, if any, is no older. */
  type Seen = map<string, int>

  ghost predicate Recent(p: Pool, seen: Seen, t: int) {
    forall k | k in seen :: seen[k] <= t && (k in p.bindings ==> p.bindings[k].boundAt >= seen[k])
  }

  ghost function Noted(seen: Seen, key: string, now: int): Seen {
    if key == "" then seen else seen[key := now]
  }

  lemma SelectRecent(p: Pool, seen: Seen, t: int, members: seq<MemberRef>, c: Cooldowns, ttl: int, key: string,
                     now: int, u: Rand)
    requires Recent(p, seen, t) && t <= now
    ensures Recent(SelectIn(p, members, c, ttl, key, now, false, u).0, Noted(seen, key, now), now)
  {
  }

  lemma ReselectRecent(p: Pool, seen: Seen, t: int, members: seq<MemberRef>, c: Cooldowns, key: string, x: string,
                       now: int, u: Rand)
    requires Recent(p, seen, t) && t <= now
    ensures Recent(ReselectIn(p, members, c, key, x, now, u).0, seen, now)
  {
  }

  /** Groups keep two or more members, clocks do not run backwards, and an exclusion follows a
      lookup of its conversation in the same pool within ttl. Judged on the run without sweeps. */
  ghost predicate Courteous(s: State, ttl: int, ops: seq<Op>, t: int, seen: Seen, seenB: Seen)
    requires Inv(s)
    decreases |ops|
  {
    ops != [] ==>
      var op := ops[0];
      && LegalOp(op) && TimeFits(op, t) && (op.Configure? ==> |op.refs| >= 2)
      && (op.Fail? && op.key != "" ==> op.key in seen && op.now - seen[op.key] <= ttl)
      && (op.FailBackup? && op.key != "" ==> op.key in seenB && op.now - seenB[op.key] <= ttl)
      && Courteous(After(s, ttl, op, false), ttl, ops[1..], TimeAfter(op, t),
                   SeenAfter(op, seen), SeenBackupAfter(s, op, seenB))
  }

  ghost function SeenAfter(op: Op, seen: Seen): Seen {
    if op.Get? then Noted(seen, op.key, op.now) else seen
  }

  ghost function SeenBackupAfter(s: State, op: Op, seenB: Seen): Seen {
    if op.GetBackup? && Selectable(s.bak.refs) then Noted(seenB, op.key, op.now) else seenB
  }

  ghost predicate RecentState(s: State, seen: Seen, seenB: Seen, t: int) {
    |s.members| >= 2 && Recent(s.def, seen, t) && Recent(s.bak, seenB, t)
  }

  lemma WithoutRecent(p: Pool, seen: Seen, t: int, now: int, keys: set<string>, refs: seq<MemberRef>)
    requires Recent(p, seen, t) && t <= now
    ensures Recent(Without(p.(refs := refs), keys), seen, now)
  {
  }

  lemma RecentAfterLookup(s: State, ttl: int, op: Op, t: int, seen: Seen, seenB: Seen)
    requires s.members != [] && TimeFits(op, t) && RecentState(s, seen, seenB, t) && (op.Get? || op.GetBackup?)
    ensures RecentState(Perform(s, ttl, op).0, SeenAfter(op, seen), SeenBackupAfter(s, op, seenB), op.now)
  {
    if op.Get? {
      SelectRecent(s.def, seen, t, s.members, s.cooldowns, ttl, op.key, op.now, op.u);
    } else {
      SelectRecent(s.bak, seenB, t, s.members, s.cooldowns, ttl, op.key, op.now, op.u);
    }
  }

  lemma RecentAfterFailure(s: State, ttl: int, op: Op, t: int, seen: Seen, seenB: Seen)
    requires s.members != [] && TimeFits(op, t) && RecentState(s, seen, seenB, t) && (op.Fail? || op.FailBackup?)
    ensures RecentState(Perform(s, ttl, op).0, seen, seenB, op.now)
  {
    var cds := s.cooldowns[op.excluded := op.now + op.cooldown];
    if op.Fail? {
      ReselectRecent(s.def, seen, t, s.members, cds, op.key, op.excluded, op.now, op.u);
    } else {
      ReselectRecent(s.bak, seenB, t, s.members, cds, op.key, op.excluded, op.now, op.u);
    }
  }

  lemma RecentAfter(s: State, ttl: int, op: Op, sweeping: bool, t: int, seen: Seen, seenB: Seen)
    requires Inv(s) && LegalOp(op) && TimeFits(op, t) && RecentState(s, seen, seenB, t)
    requires op.Configure? ==> |op.refs| >= 2
    ensures RecentState(After(s, ttl, op, sweeping), SeenAfter(op, seen), SeenBackupAfter(s, op, seenB),
        TimeAfter(op, t))
  {
    match op {
      case Configure(refs) =>
        WithoutRecent(s.def, seen, t, t, Orphans(s.def.bindings, refs), Side(refs, false));
        WithoutRecent(s.bak, seenB, t, t, Orphans(s.bak.bindings, refs), Side(refs, true));
      case Janitor(at) =>
        WithoutRecent(s.def, seen, t, at, Idle(s.def.bindings, ttl, at), s.def.refs);
        WithoutRecent(s.bak, seenB, t, at, Idle(s.bak.bindings, ttl, at), s.bak.refs);
      case Get(_, _, _) => RecentAfterLookup(s, ttl, op, t, seen, seenB);
      case GetBackup(_, _, _) => RecentAfterLookup(s, ttl, op, t, seen, seenB);
      case Fail(_, _, _, _, _) => RecentAfterFailure(s, ttl, op, t, seen, seenB);
      case FailBackup(_, _, _, _, _) => RecentAfterFailure(s, ttl, op, t, seen, seenB);
    }
  }

  lemma CourteousIsDiscreet(s: State, ttl: int, ops: seq<Op>, t: int, seen: Seen, seenB: Seen, other: State)
    requires Inv(s) && ops != [] && Courteous(s, ttl, ops, t, seen, seenB) && RecentState(other, seen, seenB, t)
    ensures Discreet(other, ttl, t, ops[0])
  {
  }

  lemma {:induction false} CourteousIsLegal(s: State, ttl: int, ops: seq<Op>, t: int, seen: Seen, seenB: Seen)
    requires Inv(s) && Courteous(s, ttl, ops, t, seen, seenB)
    ensures forall i | 0 <= i < |ops| :: LegalOp(ops[i])
    decreases |ops|
  {
    if ops != [] {
      var op := ops[0];
      CourteousIsLegal(After(s, ttl, op, false), ttl, ops[1..], TimeAfter(op, t), SeenAfter(op, seen),
          SeenBackupAfter(s, op, seenB));
      forall i | 0 <= i < |ops| ensures LegalOp(ops[i]) {
        assert i > 0 ==> ops[i] == ops[1..][i - 1];
      }
    }
  }

  lemma AlikeAfter(a: State, b: State, ttl: int, op: Op, t: int)
    requires Inv(a) && Inv(b) && Alike(a, b, ttl, t) && LegalOp(op) && TimeFits(op, t)
    requires Discreet(a, ttl, t, op) && Discreet(b, ttl, t, op)
    ensures !op.Janitor? ==> Perform(a, ttl, op).1 == Perform(b, ttl, op).1
    ensures Alike(After(a, ttl, op, true), After(b, ttl, op, false), ttl, TimeAfter(op, t))
  {
    if op.Janitor? {
      AlikeLater(a, b, ttl, t, op.at);
      SweepIsAlike(a, ttl, op.at);
      AlikeTransitive(Swept(a, ttl, op.at), a, b, ttl, op.at);
    } else {
      PerformAlike(a, b, ttl, t, op);
      AlikeLater(After(a, ttl, op, true), After(b, ttl, op, false), ttl, t, TimeAfter(op, t));
    }
  }

  lemma AlikeTransitive(a: State, b: State, c: State, ttl: int, t: int)
    requires Alike(a, b, ttl, t) && Alike(b, c, ttl, t)
    ensures Alike(a, c, ttl, t)
  {
    forall id ensures (Cooling(a.cooldowns, id, t) <==> Cooling(c.cooldowns, id, t))
      && (Cooling(a.cooldowns, id, t) ==> a.cooldowns[id] == c.cooldowns[id])
    {
      assert Cooling(a.cooldowns, id, t) <==> Cooling(b.cooldowns, id, t);
      assert Cooling(b.cooldowns, id, t) <==> Cooling(c.cooldowns, id, t);
    }
    forall k
      ensures RowAt(a.def, ttl, t, k) == RowAt(c.def, ttl, t, k)
      ensures RowAt(a.bak, ttl, t, k) == RowAt(c.bak, ttl, t, k)
    {
      assert RowAt(a.def, ttl, t, k) == RowAt(b.def, ttl, t, k) == RowAt(c.def, ttl, t, k);
      assert RowAt(a.bak, ttl, t, k) == RowAt(b.bak, ttl, t, k) == RowAt(c.bak, ttl, t, k);
    }
  }

  ghost predicate Paired(a: State, b: State, ttl: int, t: int, seen: Seen, seenB: Seen) {
    && Inv(a) && Inv(b) && Alike(a, b, ttl, t)
    && RecentState(a, seen, seenB, t) && RecentState(b, seen, seenB, t)
  }

  lemma PairedAfter(a: State, b: State, ttl: int, ops: seq<Op>, t: int, seen: Seen, seenB: Seen)
    requires Paired(a, b, ttl, t, seen, seenB) && ops != [] && Courteous(b, ttl, ops, t, seen, seenB)
    ensures var op := ops[0];
      && (!op.Janitor? ==> Perform(a, ttl, op).1 == Perform(b, ttl, op).1)
      && Paired(After(a, ttl, op, true), After(b, ttl, op, false), ttl, TimeAfter(op, t),
                SeenAfter(op, seen), SeenBackupAfter(b, op, seenB))
  {
    var op := ops[0];
    CourteousIsDiscreet(b, ttl, ops, t, seen, seenB, a);
    CourteousIsDiscreet(b, ttl, ops, t, seen, seenB, b);
    AlikeAfter(a, b, ttl, op, t);
    RecentAfter(a, ttl, op, true, t, seen, seenB);
    RecentAfter(b, ttl, op, false, t, seen, seenB);
    assert SeenBackupAfter(a, op, seenB) == SeenBackupAfter(b, op, seenB);
  }

  /** Whole runs of uninterrupted operations: however the janitor's passes are timed, the callers of a
      courteous run see the answers they would see if the janitor never ran. */
  lemma {:induction false} JanitorIsInvisible(a: State, b: State, ttl: int, ops: seq<Op>, t: int, seen: Seen,
                                              seenB: Seen)
    requires Paired(a, b, ttl, t, seen, seenB) && Courteous(b, ttl, ops, t, seen, seenB)
    requires forall i | 0 <= i < |ops| :: LegalOp(ops[i])
    ensures Answers(a, ttl, ops, true) == Answers(b, ttl, ops, false)
    decreases |ops|
  {
    if ops != [] {
      var op := ops[0];
      PairedAfter(a, b, ttl, ops, t, seen, seenB);
      JanitorIsInvisible(After(a, ttl, op, true), After(b, ttl, op, false), ttl, ops[1..], TimeAfter(op, t),
                         SeenAfter(op, seen), SeenBackupAfter(b, op, seenB));
    }
  }

  lemma AlikeSelf(s: State, ttl: int, t: int)
    ensures Alike(s, s, ttl, t)
  {
  }

  /** In particular from any sound state with two or more members. */
  lemma JanitorNeverMatters(s: State, ttl: int, ops: seq<Op>, t: int)
    requires Inv(s) && |s.members| >= 2 && Courteous(s, ttl, ops, t, map[], map[])
    ensures forall i | 0 <= i < |ops| :: LegalOp(ops[i])
    ensures Answers(s, ttl, ops, true) == Answers(s, ttl, ops, false)
  {
    CourteousIsLegal(s, ttl, ops, t, map[], map[]);
    AlikeSelf(s, ttl, t);
    JanitorIsInvisible(s, s, ttl, ops, t, map[], map[]);
  }
}
