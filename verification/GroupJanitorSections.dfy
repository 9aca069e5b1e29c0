/** Janitor timing between the lock sections of calls: a run of sections with janitor passes anywhere in
    it, inside calls included, replies as the run without them. */
module GroupJanitorSections {
  import opened WeightedPool
  import opened StickyPool
  import opened GroupSections
  import J = GroupJanitor

  /** The section's caller captured its time no earlier than `t`. */
  ghost predicate NotBefore(sec: Section, t: int) {
    sec.Read? || sec.Upgrade? || sec.Full? || sec.BackupFast? || sec.BackupFull? || sec.Exclude? || sec.BackupExclude?
    ==> t <= sec.now
  }

  /** Cooldown rows are stored, and all of them were dead at `t`. */
  ghost predicate OnlyDead(cds: Cooldowns, t: int) {
    cds != map[] && forall id | id in cds :: cds[id] <= t
  }

  /** The backup snapshot finds one backup to pick and cooldown rows that were dead at `t`. */
  ghost predicate SnapshotSees(s: State, t: int) {
    Selectable(s.bak.refs) && |s.bak.refs| == 1 && OnlyDead(s.cooldowns, t)
  }

  /** So does the fast path, for the same backup and a conversation without a row that it would serve. */
  ghost predicate FastSees(s: State, ttl: int, t: int, key: string, fastId: string, now: int) {
    SnapshotSees(s, t) && s.bak.refs[0].id == fastId && J.RowAt(s.bak, ttl, now, key).None?
  }

  /** The section reads nothing of this state that was dead at `t`. */
  ghost predicate Discreet(s: State, ttl: int, t: int, sec: Section) {
    match sec
    case Exclude(key, x, cd, now, _) => !J.ReadsDeadRow(s.def, s.cooldowns[x := now + cd], ttl, t, key, x, now)
    case BackupExclude(key, x, cd, now, _) => !J.ReadsDeadRow(s.bak, s.cooldowns[x := now + cd], ttl, t, key, x, now)
    case BackupSnapshot => !SnapshotSees(s, t)
    case BackupFast(key, fastId, now) => !FastSees(s, ttl, t, key, fastId, now)
    case _ => true
  }

  ghost predicate SameReply(a: State, b: State, ttl: int, t: int, sec: Section)
    requires Enabled(a, sec) && Enabled(b, sec)
  {
    Do(a, ttl, sec).1 == Do(b, ttl, sec).1 && J.Alike(Do(a, ttl, sec).0, Do(b, ttl, sec).0, ttl, t)
  }

  lemma ReadAlike(a: State, b: State, ttl: int, t: int, sec: Section)
    requires J.Alike(a, b, ttl, t) && Enabled(a, sec) && Enabled(b, sec) && NotBefore(sec, t)
    requires (sec.Read? || sec.Upgrade?)
    ensures SameReply(a, b, ttl, t, sec)
  {
    J.CoolAlikeLater(a.cooldowns, b.cooldowns, t, sec.now);
    assert J.RowAt(a.def, ttl, t, sec.key) == J.RowAt(b.def, ttl, t, sec.key);
    if sec.Read? {
      if sec.key in a.def.bindings {
        assert Cooling(a.cooldowns, a.def.bindings[sec.key].member, sec.now)
            <==> Cooling(b.cooldowns, a.def.bindings[sec.key].member, sec.now);
      }
    } else {
      assert Cooling(a.cooldowns, sec.hit, sec.now) <==> Cooling(b.cooldowns, sec.hit, sec.now);
      J.BindAlike(a.def, b.def, ttl, t, sec.key, sec.hit, sec.now);
    }
  }

  lemma FullAlike(a: State, b: State, ttl: int, t: int, sec: Section)
    requires Inv(a) && Inv(b) && J.Alike(a, b, ttl, t) && NotBefore(sec, t) && sec.Full?
    ensures SameReply(a, b, ttl, t, sec)
  {
    J.SelectAlike(a.def, b.def, a.members, a.cooldowns, b.cooldowns, ttl, t, sec.key, sec.now, false, sec.u);
  }

  /** The full path of the backup pool on alike pools. */
  lemma BackupSelectionAlike(a: State, b: State, ttl: int, t: int, key: string, now: int, carried: bool, u: Rand)
    requires Inv(a) && Inv(b) && J.Alike(a, b, ttl, t) && t <= now && Selectable(a.bak.refs)
    ensures var x, y := BackupFullOf(a, ttl, key, now, carried, u), BackupFullOf(b, ttl, key, now, carried, u);
      x.1 == y.1 && J.Alike(x.0, y.0, ttl, t)
  {
    J.SelectAlike(a.bak, b.bak, a.members, a.cooldowns, b.cooldowns, ttl, t, key, now, carried, u);
    J.PartsAlike(a, b, a.def, b.def, SelectIn(a.bak, a.members, a.cooldowns, ttl, key, now, carried, u).0,
        SelectIn(b.bak, b.members, b.cooldowns, ttl, key, now, carried, u).0, a.cooldowns, b.cooldowns, ttl, t);
  }

  lemma BackupFullAlike(a: State, b: State, ttl: int, t: int, sec: Section)
    requires Inv(a) && Inv(b) && J.Alike(a, b, ttl, t) && NotBefore(sec, t) && sec.BackupFull?
    ensures SameReply(a, b, ttl, t, sec)
  {
    if Selectable(a.bak.refs) {
      BackupSelectionAlike(a, b, ttl, t, sec.key, sec.now, sec.carried, sec.u);
    }
  }

  lemma DefaultExclusionAlike(a: State, b: State, ttl: int, t: int, sec: Section)
    requires J.Alike(a, b, ttl, t) && NotBefore(sec, t) && Legal(sec) && sec.Exclude?
    requires Discreet(a, ttl, t, sec) && Discreet(b, ttl, t, sec)
    ensures SameReply(a, b, ttl, t, sec)
  {
    var x, until := sec.excluded, sec.now + sec.cooldown;
    J.MarkAlike(a.cooldowns, b.cooldowns, t, x, until);
    J.ReselectAlike(a.def, b.def, a.members, a.cooldowns[x := until], b.cooldowns[x := until], ttl, t, sec.key, x,
        sec.now, sec.u);
  }

  lemma BackupExclusionAlike(a: State, b: State, ttl: int, t: int, sec: Section)
    requires J.Alike(a, b, ttl, t) && NotBefore(sec, t) && Legal(sec) && sec.BackupExclude?
    requires Discreet(a, ttl, t, sec) && Discreet(b, ttl, t, sec)
    ensures SameReply(a, b, ttl, t, sec)
  {
    var x, until := sec.excluded, sec.now + sec.cooldown;
    J.MarkAlike(a.cooldowns, b.cooldowns, t, x, until);
    J.ReselectAlike(a.bak, b.bak, a.members, a.cooldowns[x := until], b.cooldowns[x := until], ttl, t, sec.key, x,
        sec.now, sec.u);
  }

  lemma OtherAlike(a: State, b: State, ttl: int, t: int, sec: Section)
    requires J.Alike(a, b, ttl, t) && Enabled(a, sec) && Enabled(b, sec)
    requires sec.Count? || sec.First? || sec.BackupSingle? || sec.Change?
    ensures SameReply(a, b, ttl, t, sec)
  {
    if sec.BackupSingle? {
      J.MarkAlike(a.cooldowns, b.cooldowns, t, sec.excluded, sec.now + sec.cooldown);
    } else if sec.Change? {
      J.ChangeAlike(a.def, b.def, ttl, t, sec.refs, Side(sec.refs, false));
      J.ChangeAlike(a.bak, b.bak, ttl, t, sec.refs, Side(sec.refs, true));
    }
  }

  /** Whether any cooldown row is stored is the same in alike states with live rows or none. */
  lemma EmptinessAlike(c: Cooldowns, d: Cooldowns, t: int)
    requires J.CoolAlike(c, d, t) && !OnlyDead(c, t) && !OnlyDead(d, t)
    ensures |c| == 0 <==> |d| == 0
  {
    if c != map[] {
      var id :| id in c && c[id] > t;
      assert Cooling(c, id, t) <==> Cooling(d, id, t);
    }
    if d != map[] {
      var id :| id in d && d[id] > t;
      assert Cooling(c, id, t) <==> Cooling(d, id, t);
    }
  }

  lemma SnapshotAlike(a: State, b: State, ttl: int, t: int)
    requires J.Alike(a, b, ttl, t) && !SnapshotSees(a, t) && !SnapshotSees(b, t)
    ensures SameReply(a, b, ttl, t, BackupSnapshot)
  {
    if Selectable(a.bak.refs) && |a.bak.refs| == 1 {
      EmptinessAlike(a.cooldowns, b.cooldowns, t);
    }
  }

  /** The fast path on the rows of two pools and the answer to whether any cooldown row is stored. */
  lemma FastAlike(p: Pool, q: Pool, members: seq<MemberRef>, c: Cooldowns, d: Cooldowns, ttl: int, t: int,
                  key: string, fastId: string, now: int)
    requires J.PoolAlike(p, q, ttl, t) && t <= now && PoolInv(p, members) && PoolInv(q, members)
    requires J.RowAt(p, ttl, now, key).None? && Selectable(p.refs) && |p.refs| == 1 && p.refs[0].id == fastId ==>
        (|c| == 0 <==> |d| == 0)
    ensures var x, y := FastIn(p, members, c, ttl, key, fastId, now), FastIn(q, members, d, ttl, key, fastId, now);
      x.1 == y.1 && J.PoolAlike(x.0, y.0, ttl, t)
  {
    J.PoolAlikeLater(p, q, ttl, t, now);
    assert J.RowAt(p, ttl, now, key) == J.RowAt(q, ttl, now, key);
    if J.RowAt(p, ttl, now, key).Some? {
      J.BindAlike(p, q, ttl, t, key, p.bindings[key].member, now);
    } else {
      J.DropAlike(p, q, ttl, t, key);
      J.BindAlike(Drop(p, key), Drop(q, key), ttl, t, key, fastId, now);
    }
  }

  lemma BackupFastAlike(a: State, b: State, ttl: int, t: int, sec: Section)
    requires Inv(a) && Inv(b) && J.Alike(a, b, ttl, t) && NotBefore(sec, t) && sec.BackupFast? && Legal(sec)
    requires Discreet(a, ttl, t, sec) && Discreet(b, ttl, t, sec)
    ensures SameReply(a, b, ttl, t, sec)
  {
    J.PoolAlikeLater(a.bak, b.bak, ttl, t, sec.now);
    assert J.RowAt(a.bak, ttl, sec.now, sec.key) == J.RowAt(b.bak, ttl, sec.now, sec.key);
    if J.RowAt(a.bak, ttl, sec.now, sec.key).None? && Selectable(a.bak.refs) && |a.bak.refs| == 1
        && a.bak.refs[0].id == sec.fastId {
      EmptinessAlike(a.cooldowns, b.cooldowns, t);
    }
    FastAlike(a.bak, b.bak, a.members, a.cooldowns, b.cooldowns, ttl, t, sec.key, sec.fastId, sec.now);
  }

  /** A discreet section cannot tell alike states apart. */
  lemma SectionAlike(a: State, b: State, ttl: int, t: int, sec: Section)
    requires Inv(a) && Inv(b) && J.Alike(a, b, ttl, t) && Enabled(a, sec) && Enabled(b, sec) && NotBefore(sec, t)
    requires !sec.Sweep?
    requires Discreet(a, ttl, t, sec) && Discreet(b, ttl, t, sec)
    ensures SameReply(a, b, ttl, t, sec)
  {
    match sec {
      case Read(_, _) => ReadAlike(a, b, ttl, t, sec);
      case Upgrade(_, _, _) => ReadAlike(a, b, ttl, t, sec);
      case Full(_, _, _) => FullAlike(a, b, ttl, t, sec);
      case BackupSnapshot => SnapshotAlike(a, b, ttl, t);
      case BackupFast(_, _, _) => BackupFastAlike(a, b, ttl, t, sec);
      case BackupFull(_, _, _, _) => BackupFullAlike(a, b, ttl, t, sec);
      case Exclude(_, _, _, _, _) => DefaultExclusionAlike(a, b, ttl, t, sec);
      case BackupExclude(_, _, _, _, _) => BackupExclusionAlike(a, b, ttl, t, sec);
      case _ => OtherAlike(a, b, ttl, t, sec);
    }
  }

  // ------------------------------------------------------------------- rows of the swept run

  /** Every row of the one pool is a row of the other. */
  ghost predicate Within(p: Pool, q: Pool) {
    forall k | k in p.bindings :: k in q.bindings && q.bindings[k] == p.bindings[k]
  }

  /** Every sticky row and every cooldown row of the one state is stored in the other. */
  ghost predicate RowsWithin(a: State, b: State) {
    Within(a.def, b.def) && Within(a.bak, b.bak) && a.cooldowns.Keys <= b.cooldowns.Keys
  }

  lemma FreshWithin(p: Pool, q: Pool, c: Cooldowns, d: Cooldowns, key: string, now: int, stale: bool, stale': bool,
                    u: Rand)
    requires p.refs == q.refs && CoolingIds(c, now) == CoolingIds(d, now) && Within(p, q)
    ensures Within(FreshIn(p, c, key, now, stale, u).0, FreshIn(q, d, key, now, stale', u).0)
  {
  }

  lemma SelectWithin(p: Pool, q: Pool, members: seq<MemberRef>, c: Cooldowns, d: Cooldowns, ttl: int, t: int,
                     key: string, now: int, carried: bool, u: Rand)
    requires J.PoolAlike(p, q, ttl, t) && J.CoolAlike(c, d, t) && t <= now && Within(p, q)
    ensures Within(SelectIn(p, members, c, ttl, key, now, carried, u).0,
        SelectIn(q, members, d, ttl, key, now, carried, u).0)
  {
    J.CoolAlikeLater(c, d, t, now);
    J.CoolAlikeFlip(c, d, now);
    if key in p.bindings && Live(p.bindings[key], members, c, ttl, now) {
      J.LiveAlike(p, q, members, c, d, ttl, t, key, now);
    } else if key in q.bindings && Live(q.bindings[key], members, d, ttl, now) {
      J.PoolAlikeFlip(p, q, ttl, t);
      J.LiveAlike(q, p, members, d, c, ttl, t, key, now);
    } else {
      var p', q' := if key == "" then p else Drop(p, key), if key == "" then q else Drop(q, key);
      var stale := carried || (key != "" && key in p.bindings && !InRefs(members, p.bindings[key].member));
      var stale' := carried || (key != "" && key in q.bindings && !InRefs(members, q.bindings[key].member));
      assert Within(p', q');
      FreshWithin(p', q', c, d, key, now, stale, stale', u);
    }
  }

  lemma ReselectWithin(p: Pool, q: Pool, members: seq<MemberRef>, c: Cooldowns, d: Cooldowns, ttl: int, t: int,
                       key: string, x: string, now: int, u: Rand)
    requires J.PoolAlike(p, q, ttl, t) && J.CoolAlike(c, d, t) && t <= now && Within(p, q)
    requires !J.ReadsDeadRow(p, c, ttl, t, key, x, now) && !J.ReadsDeadRow(q, d, ttl, t, key, x, now)
    ensures Within(ReselectIn(p, members, c, key, x, now, u).0, ReselectIn(q, members, d, key, x, now, u).0)
  {
    J.CoolAlikeLater(c, d, t, now);
    J.CoolAlikeFlip(c, d, now);
    if J.AlreadyMoved(p, members, c, key, x, now) {
      J.AlreadyMovedAlike(p, q, members, c, d, ttl, t, key, x, now);
    } else if J.AlreadyMoved(q, members, d, key, x, now) {
      J.AlreadyMovedAlike(q, p, members, d, c, ttl, t, key, x, now);
    }
  }

  lemma OnlyDeadWithin(a: State, b: State, ttl: int, t: int)
    requires RowsWithin(a, b) && J.Alike(a, b, ttl, t) && OnlyDead(a.cooldowns, t)
    ensures OnlyDead(b.cooldowns, t)
  {
    var some :| some in a.cooldowns;
    assert some in b.cooldowns;
    forall id | id in b.cooldowns ensures b.cooldowns[id] <= t {
      assert Cooling(a.cooldowns, id, t) <==> Cooling(b.cooldowns, id, t);
    }
  }

  lemma BackupDiscreetWithin(a: State, b: State, ttl: int, t: int, sec: Section)
    requires RowsWithin(a, b) && J.Alike(a, b, ttl, t) && NotBefore(sec, t) && Discreet(b, ttl, t, sec)
    requires sec.BackupSnapshot? || sec.BackupFast?
    ensures Discreet(a, ttl, t, sec)
  {
    if OnlyDead(a.cooldowns, t) {
      OnlyDeadWithin(a, b, ttl, t);
    }
    if sec.BackupFast? {
      J.PoolAlikeLater(a.bak, b.bak, ttl, t, sec.now);
      assert J.RowAt(a.bak, ttl, sec.now, sec.key) == J.RowAt(b.bak, ttl, sec.now, sec.key);
    }
  }

  lemma ExclusionDiscreetWithin(a: State, b: State, ttl: int, t: int, sec: Section)
    requires RowsWithin(a, b) && J.Alike(a, b, ttl, t) && NotBefore(sec, t) && Discreet(b, ttl, t, sec)
    requires sec.Exclude? || sec.BackupExclude?
    ensures Discreet(a, ttl, t, sec)
  {
    var x, until := sec.excluded, sec.now + sec.cooldown;
    var c, d := a.cooldowns[x := until], b.cooldowns[x := until];
    J.MarkAlike(a.cooldowns, b.cooldowns, t, x, until);
    J.CoolAlikeLater(c, d, t, sec.now);
    var p := if sec.Exclude? then a.def else a.bak;
    if sec.key in p.bindings {
      assert Cooling(c, p.bindings[sec.key].member, sec.now) <==> Cooling(d, p.bindings[sec.key].member, sec.now);
    }
  }

  /** A section that reads nothing dead of the larger state reads nothing dead of the smaller. */
  lemma DiscreetWithin(a: State, b: State, ttl: int, t: int, sec: Section)
    requires RowsWithin(a, b) && J.Alike(a, b, ttl, t) && NotBefore(sec, t) && Discreet(b, ttl, t, sec)
    ensures Discreet(a, ttl, t, sec)
  {
    if sec.Exclude? || sec.BackupExclude? {
      ExclusionDiscreetWithin(a, b, ttl, t, sec);
    } else if sec.BackupSnapshot? || sec.BackupFast? {
      BackupDiscreetWithin(a, b, ttl, t, sec);
    }
  }

  lemma SelectionWithin(a: State, b: State, ttl: int, t: int, sec: Section)
    requires J.Alike(a, b, ttl, t) && NotBefore(sec, t) && RowsWithin(a, b) && (sec.Full? || sec.BackupFull?)
    ensures RowsWithin(Do(a, ttl, sec).0, Do(b, ttl, sec).0)
  {
    if sec.Full? {
      SelectWithin(a.def, b.def, a.members, a.cooldowns, b.cooldowns, ttl, t, sec.key, sec.now, false, sec.u);
    } else {
      SelectWithin(a.bak, b.bak, a.members, a.cooldowns, b.cooldowns, ttl, t, sec.key, sec.now, sec.carried, sec.u);
    }
  }

  lemma ExclusionRows(s: State, ttl: int, sec: Section)
    requires Legal(sec) && (sec.Exclude? || sec.BackupExclude?)
    ensures var p, s' := if sec.Exclude? then s.def else s.bak, Do(s, ttl, sec).0;
      var cds := s.cooldowns[sec.excluded := sec.now + sec.cooldown];
      var p' := ReselectIn(p, s.members, cds, sec.key, sec.excluded, sec.now, sec.u).0;
      if sec.Exclude? then s'.def == p' && s'.bak == s.bak else s'.def == s.def && s'.bak == p'
  {
  }

  lemma DiscreetMeans(s: State, ttl: int, t: int, sec: Section)
    requires Discreet(s, ttl, t, sec) && (sec.Exclude? || sec.BackupExclude?)
    ensures var p, cds := if sec.Exclude? then s.def else s.bak, s.cooldowns[sec.excluded := sec.now + sec.cooldown];
      !J.ReadsDeadRow(p, cds, ttl, t, sec.key, sec.excluded, sec.now)
  {
  }

  /** The exclusions of alike states, pool by pool. */
  lemma ExcludedPoolWithin(a: State, b: State, p: Pool, q: Pool, ttl: int, t: int, sec: Section)
    requires J.Alike(a, b, ttl, t) && J.PoolAlike(p, q, ttl, t) && Within(p, q)
    requires (sec.Exclude? || sec.BackupExclude?) && t <= sec.now
    requires var x, until := sec.excluded, sec.now + sec.cooldown;
      && !J.ReadsDeadRow(p, a.cooldowns[x := until], ttl, t, sec.key, x, sec.now)
      && !J.ReadsDeadRow(q, b.cooldowns[x := until], ttl, t, sec.key, x, sec.now)
    ensures var x, until := sec.excluded, sec.now + sec.cooldown;
      Within(ReselectIn(p, a.members, a.cooldowns[x := until], sec.key, x, sec.now, sec.u).0,
             ReselectIn(q, b.members, b.cooldowns[x := until], sec.key, x, sec.now, sec.u).0)
  {
    var x, until := sec.excluded, sec.now + sec.cooldown;
    J.MarkAlike(a.cooldowns, b.cooldowns, t, x, until);
    var c, d := a.cooldowns[x := until], b.cooldowns[x := until];
    ReselectWithin(p, q, a.members, c, d, ttl, t, sec.key, x, sec.now, sec.u);
  }

  lemma ExclusionWithin(a: State, b: State, ttl: int, t: int, sec: Section)
    requires J.Alike(a, b, ttl, t) && NotBefore(sec, t) && Legal(sec) && RowsWithin(a, b)
    requires sec.Exclude? || sec.BackupExclude?
    requires Discreet(a, ttl, t, sec) && Discreet(b, ttl, t, sec)
    ensures RowsWithin(Do(a, ttl, sec).0, Do(b, ttl, sec).0)
  {
    DiscreetMeans(a, ttl, t, sec);
    DiscreetMeans(b, ttl, t, sec);
    if sec.Exclude? {
      ExcludedPoolWithin(a, b, a.def, b.def, ttl, t, sec);
    } else {
      ExcludedPoolWithin(a, b, a.bak, b.bak, ttl, t, sec);
    }
    ExclusionRows(a, ttl, sec);
    ExclusionRows(b, ttl, sec);
  }

  /** Alike pools: the fast path keeps the rows of the one within the other. */
  lemma FastWithin(p: Pool, q: Pool, members: seq<MemberRef>, c: Cooldowns, d: Cooldowns, ttl: int, t: int,
                   key: string, fastId: string, now: int)
    requires J.PoolAlike(p, q, ttl, t) && t <= now && Within(p, q)
    requires FastIn(p, members, c, ttl, key, fastId, now).1 == FastIn(q, members, d, ttl, key, fastId, now).1
    ensures Within(FastIn(p, members, c, ttl, key, fastId, now).0, FastIn(q, members, d, ttl, key, fastId, now).0)
  {
    J.PoolAlikeLater(p, q, ttl, t, now);
    assert J.RowAt(p, ttl, now, key) == J.RowAt(q, ttl, now, key);
  }

  lemma BackupFastWithin(a: State, b: State, ttl: int, t: int, sec: Section)
    requires Inv(a) && Inv(b) && J.Alike(a, b, ttl, t) && NotBefore(sec, t) && RowsWithin(a, b)
    requires sec.BackupFast? && Legal(sec) && Discreet(a, ttl, t, sec) && Discreet(b, ttl, t, sec)
    ensures RowsWithin(Do(a, ttl, sec).0, Do(b, ttl, sec).0)
  {
    BackupFastAlike(a, b, ttl, t, sec);
    FastWithin(a.bak, b.bak, a.members, a.cooldowns, b.cooldowns, ttl, t, sec.key, sec.fastId, sec.now);
  }

  lemma OtherWithin(a: State, b: State, ttl: int, t: int, sec: Section)
    requires J.Alike(a, b, ttl, t) && Enabled(a, sec) && Enabled(b, sec) && NotBefore(sec, t) && RowsWithin(a, b)
    requires !sec.Sweep? && !sec.BackupFast?
    requires Discreet(a, ttl, t, sec) && Discreet(b, ttl, t, sec)
    ensures RowsWithin(Do(a, ttl, sec).0, Do(b, ttl, sec).0)
  {
    if sec.Full? || sec.BackupFull? {
      SelectionWithin(a, b, ttl, t, sec);
    } else if sec.Exclude? || sec.BackupExclude? {
      ExclusionWithin(a, b, ttl, t, sec);
    } else if sec.Upgrade? {
      ReadAlike(a, b, ttl, t, sec);
    }
  }

  lemma SectionWithin(a: State, b: State, ttl: int, t: int, sec: Section)
    requires Inv(a) && Inv(b) && J.Alike(a, b, ttl, t) && Enabled(a, sec) && Enabled(b, sec) && NotBefore(sec, t)
    requires Discreet(a, ttl, t, sec) && Discreet(b, ttl, t, sec) && RowsWithin(a, b) && !sec.Sweep?
    ensures RowsWithin(Do(a, ttl, sec).0, Do(b, ttl, sec).0)
  {
    if sec.BackupFast? {
      BackupFastWithin(a, b, ttl, t, sec);
    } else {
      OtherWithin(a, b, ttl, t, sec);
    }
  }

  // -------------------------------------------------------------------------- whole runs

  /** What the callers see; without `sweeping` the janitor does nothing. */
  ghost function Replies(s: State, ttl: int, tr: seq<Section>, sweeping: bool): seq<Reply>
    requires Inv(s) && forall i | 0 <= i < |tr| :: Legal(tr[i])
    decreases |tr|
  {
    if tr == [] then []
    else
      SectionKeeps(s, ttl, tr[0]);
      var (s', r) := Do(s, ttl, tr[0]);
      if tr[0].Sweep? then Replies(if sweeping then s' else s, ttl, tr[1..], sweeping)
      else [r] + Replies(s', ttl, tr[1..], sweeping)
  }

  /** A run that no sweep of it can disturb, said of the run without sweeps: the caller of every section
      captured its time no earlier than the latest sweep so far, and the section reads nothing that was
      dead then. */
  ghost predicate Undisturbed(s: State, ttl: int, tr: seq<Section>, t: int)
    requires s.members != []
    decreases |tr|
  {
    tr == [] ||
      (Legal(tr[0]) &&
       if tr[0].Sweep? then Undisturbed(s, ttl, tr[1..], if tr[0].now > t then tr[0].now else t)
       else
         && NotBefore(tr[0], t) && Discreet(s, ttl, t, tr[0])
         && Do(s, ttl, tr[0]).0.members != [] && Undisturbed(Do(s, ttl, tr[0]).0, ttl, tr[1..], t))
  }

  lemma SweptStaysAlike(a: State, b: State, ttl: int, t: int, at: int)
    requires J.Alike(a, b, ttl, t) && RowsWithin(a, b)
    ensures var t' := if at > t then at else t;
      J.Alike(Swept(a, ttl, at), b, ttl, t') && RowsWithin(Swept(a, ttl, at), b)
  {
    var t' := if at > t then at else t;
    J.SweepIsAlike(a, ttl, at);
    J.AlikeLater(Swept(a, ttl, at), a, ttl, at, t');
    J.AlikeLater(a, b, ttl, t, t');
    J.AlikeTransitive(Swept(a, ttl, at), a, b, ttl, t');
  }

  lemma {:induction false} UndisturbedIsLegal(s: State, ttl: int, tr: seq<Section>, t: int)
    requires s.members != [] && Undisturbed(s, ttl, tr, t)
    ensures forall i | 0 <= i < |tr| :: Legal(tr[i])
    decreases |tr|
  {
    if tr != [] {
      if tr[0].Sweep? {
        UndisturbedIsLegal(s, ttl, tr[1..], if tr[0].now > t then tr[0].now else t);
      } else {
        UndisturbedIsLegal(Do(s, ttl, tr[0]).0, ttl, tr[1..], t);
      }
      assert forall i | 1 <= i < |tr| :: tr[i] == tr[1..][i - 1];
    }
  }

  /** Sweeps anywhere between the lock sections of any number of interleaved calls, also between the
      sections of one call, change no reply. */
  lemma {:induction false} SweepsAreInvisible(a: State, b: State, ttl: int, tr: seq<Section>, t: int)
    requires Inv(a) && Inv(b) && J.Alike(a, b, ttl, t) && RowsWithin(a, b) && Undisturbed(b, ttl, tr, t)
    requires forall i | 0 <= i < |tr| :: Legal(tr[i])
    ensures Replies(a, ttl, tr, true) == Replies(b, ttl, tr, false)
    decreases |tr|
  {
    if tr != [] {
      var sec := tr[0];
      SectionKeeps(a, ttl, sec);
      SectionKeeps(b, ttl, sec);
      if sec.Sweep? {
        SweptStaysAlike(a, b, ttl, t, sec.now);
        SweepsAreInvisible(Swept(a, ttl, sec.now), b, ttl, tr[1..], if sec.now > t then sec.now else t);
      } else {
        DiscreetWithin(a, b, ttl, t, sec);
        SectionAlike(a, b, ttl, t, sec);
        SectionWithin(a, b, ttl, t, sec);
        SweepsAreInvisible(Do(a, ttl, sec).0, Do(b, ttl, sec).0, ttl, tr[1..], t);
      }
    }
  }

  /** In particular from any sound state. */
  lemma SweepsNeverMatter(s: State, ttl: int, tr: seq<Section>, t: int)
    requires Inv(s) && Undisturbed(s, ttl, tr, t)
    ensures forall i | 0 <= i < |tr| :: Legal(tr[i])
    ensures Replies(s, ttl, tr, true) == Replies(s, ttl, tr, false)
  {
    UndisturbedIsLegal(s, ttl, tr, t);
    J.AlikeSelf(s, ttl, t);
    SweepsAreInvisible(s, s, ttl, tr, t);
  }

  // ------------------------------------------------------------------------ the exact condition

  lemma SweptAlikeWithin(s: State, ttl: int, t: int)
    requires Inv(s)
    ensures Inv(Swept(s, ttl, t)) && J.Alike(Swept(s, ttl, t), s, ttl, t) && RowsWithin(Swept(s, ttl, t), s)
  {
    SweepKeeps(s, ttl, t);
    J.SweepIsAlike(s, ttl, t);
  }

  lemma SweptCooldowns(s: State, ttl: int, t: int)
    ensures |Swept(s, ttl, t).cooldowns| == 0 <==> s.cooldowns == map[] || OnlyDead(s.cooldowns, t)
  {
    var cds := Swept(s, ttl, t).cooldowns;
    if id :| id in s.cooldowns && s.cooldowns[id] > t {
      assert id in cds;
    } else {
      assert cds == map[];
    }
  }

  /** The snapshot of a backup lookup tells a swept state from an unswept one exactly when there is one
      backup to pick and only dead cooldown rows are stored. */
  lemma SnapshotSeesSweepIff(s: State, ttl: int, t: int)
    ensures Do(Swept(s, ttl, t), ttl, BackupSnapshot).1 != Do(s, ttl, BackupSnapshot).1 <==> SnapshotSees(s, t)
  {
    SweptCooldowns(s, ttl, t);
    assert |s.cooldowns| == 0 <==> s.cooldowns == map[];
  }

  /** Its fast path does exactly when that backup is the one it saw, and the conversation has no row to
      serve. */
  lemma FastSeesSweepIff(s: State, ttl: int, t: int, key: string, fastId: string, now: int)
    requires Inv(s) && t <= now && key != ""
    ensures Do(Swept(s, ttl, t), ttl, BackupFast(key, fastId, now)).1 != Do(s, ttl, BackupFast(key, fastId, now)).1
      <==> FastSees(s, ttl, t, key, fastId, now)
  {
    var sec := BackupFast(key, fastId, now);
    SweptAlikeWithin(s, ttl, t);
    if FastSees(s, ttl, t, key, fastId, now) {
      SweptCooldowns(s, ttl, t);
    } else {
      DiscreetWithin(Swept(s, ttl, t), s, ttl, t, sec);
      BackupFastAlike(Swept(s, ttl, t), s, ttl, t, sec);
    }
  }

  /** An exclusion with its mark given as a moment. */
  ghost function Excluding(s: State, sec: Section, until: int): (State, Reply)
    requires sec.Exclude? || sec.BackupExclude?
  {
    var cds := s.cooldowns[sec.excluded := until];
    var (p, m, mode) :=
      ReselectIn(if sec.Exclude? then s.def else s.bak, s.members, cds, sec.key, sec.excluded, sec.now, sec.u);
    (if sec.Exclude? then s.(def := p, cooldowns := cds) else s.(bak := p, cooldowns := cds), Reselected(m, mode))
  }

  lemma ExclusionIsExcluding(s: State, ttl: int, sec: Section, until: int)
    requires Legal(sec) && (sec.Exclude? || sec.BackupExclude?) && until == sec.now + sec.cooldown
    ensures Do(s, ttl, sec) == Excluding(s, sec, until)
  {
  }

  /** An exclusion that reads a dead row replies otherwise or leaves other rows to be served. */
  lemma ExcludingSeesSweep(s: State, ttl: int, t: int, sec: Section, until: int)
    requires Inv(s) && (sec.Exclude? || sec.BackupExclude?) && t <= sec.now && ttl >= 0
    requires var p := if sec.Exclude? then s.def else s.bak;
      J.ReadsDeadRow(p, s.cooldowns[sec.excluded := until], ttl, t, sec.key, sec.excluded, sec.now)
    ensures var a, b := Excluding(Swept(s, ttl, t), sec, until), Excluding(s, sec, until);
      !(a.1 == b.1 && J.Alike(a.0, b.0, ttl, t))
  {
    var s' := J.SweptLater(s, ttl, t, sec.now);
    var a, b := Excluding(s', sec, until), Excluding(s, sec, until);
    if sec.Exclude? {
      J.RebindSeesSweepIff(s.members, s'.cooldowns, s.cooldowns, s'.def, s.def, ttl, t, sec.key, sec.excluded, until,
          sec.now, sec.u);
      if J.PoolAlike(a.0.def, b.0.def, ttl, t) {
        J.PoolAlikeLater(a.0.def, b.0.def, ttl, t, sec.now);
      }
    } else {
      J.RebindSeesSweepIff(s.members, s'.cooldowns, s.cooldowns, s'.bak, s.bak, ttl, t, sec.key, sec.excluded, until,
          sec.now, sec.u);
      if J.PoolAlike(a.0.bak, b.0.bak, ttl, t) {
        J.PoolAlikeLater(a.0.bak, b.0.bak, ttl, t, sec.now);
      }
    }
  }

  lemma ExclusionSeesSweep(s: State, ttl: int, t: int, sec: Section, until: int)
    requires Inv(s) && Legal(sec) && NotBefore(sec, t) && ttl >= 0 && (sec.Exclude? || sec.BackupExclude?)
    requires !Discreet(s, ttl, t, sec) && until == sec.now + sec.cooldown
    ensures !SameReply(Swept(s, ttl, t), s, ttl, t, sec)
  {
    ExclusionIsExcluding(s, ttl, sec, until);
    ExclusionIsExcluding(Swept(s, ttl, t), ttl, sec, until);
    ExcludingSeesSweep(s, ttl, t, sec, until);
  }

  /** A sweep is seen by a section, in its reply or in what it leaves to be served, exactly when the
      section reads something that the sweep took. */
  lemma SectionSeesSweepIff(s: State, ttl: int, t: int, sec: Section)
    requires Inv(s) && Enabled(s, sec) && NotBefore(sec, t) && !sec.Sweep? && ttl >= 0
    ensures SameReply(Swept(s, ttl, t), s, ttl, t, sec) <==> Discreet(s, ttl, t, sec)
  {
    SweptAlikeWithin(s, ttl, t);
    if Discreet(s, ttl, t, sec) {
      DiscreetWithin(Swept(s, ttl, t), s, ttl, t, sec);
      SectionAlike(Swept(s, ttl, t), s, ttl, t, sec);
    } else if sec.BackupSnapshot? {
      SnapshotSeesSweepIff(s, ttl, t);
    } else if sec.BackupFast? {
      FastSeesSweepIff(s, ttl, t, sec.key, sec.fastId, sec.now);
    } else {
      ExclusionSeesSweep(s, ttl, t, sec, sec.now + sec.cooldown);
    }
  }
}
