/** The lock sections of the sticky group engine (pkg/grouplb/engine.go), each as one atomic
    function of a group's state, and what every section keeps. Time is an integer that the
    caller captured before it took the lock. */
module GroupSections {
  import opened Options
  import opened WeightedPool
  import opened StickyPool

  /** `members` spans both pools; cooldown rows are shared by both. */
  datatype State = State(members: seq<MemberRef>, def: Pool, bak: Pool, cooldowns: Cooldowns)

  // ------------------------------------------------------------- what the sections do

  /** The refs of one side of the partition, in order. */
  ghost function Side(refs: seq<MemberRef>, backup: bool): seq<MemberRef> {
    if refs == [] then []
    else
      var s := Side(refs[..|refs| - 1], backup);
      if refs[|refs| - 1].backupOnly == backup then s + [refs[|refs| - 1]] else s
  }

  /** A side holds exactly the entries with its flag. */
  lemma {:induction false} SideFacts(refs: seq<MemberRef>, backup: bool, x: MemberRef)
    ensures x in Side(refs, backup) <==> x in refs && x.backupOnly == backup
  {
    if refs != [] {
      SideFacts(refs[..|refs| - 1], backup, x);
      assert refs == refs[..|refs| - 1] + [refs[|refs| - 1]];
    }
  }

  lemma SideIds(refs: seq<MemberRef>, backup: bool)
    ensures forall i | 0 <= i < |Side(refs, backup)| :: InRefs(refs, Side(refs, backup)[i].id)
  {
    var s := Side(refs, backup);
    forall i | 0 <= i < |s| ensures InRefs(refs, s[i].id) {
      SideFacts(refs, backup, s[i]);
      var k :| 0 <= k < |refs| && refs[k] == s[i];
    }
  }

  /** OnGroupChanged on a published state: new refs on both sides, orphan rows dropped,
      every other row and all cooldown rows kept. */
  ghost function Reconfigure(s: State, refs: seq<MemberRef>): State {
    State(refs,
          Without(s.def.(refs := Side(refs, false)), Orphans(s.def.bindings, refs)),
          Without(s.bak.(refs := Side(refs, true)), Orphans(s.bak.bindings, refs)),
          s.cooldowns)
  }

  /** One janitor pass over a group. */
  ghost function Swept(s: State, ttl: int, now: int): State {
    State(s.members,
          Without(s.def, Idle(s.def.bindings, ttl, now)),
          Without(s.bak, Idle(s.bak.bindings, ttl, now)),
          map id | id in s.cooldowns && s.cooldowns[id] > now :: s.cooldowns[id])
  }

  ghost function NewState(refs: seq<MemberRef>): State {
    State(refs, Pool(Side(refs, false), map[], 0), Pool(Side(refs, true), map[], 0), map[])
  }

  // --------------------------------------------------------------------- sections

  datatype Section =
    | Count
    | First
    | Read(key: string, now: int)
    | Upgrade(key: string, hit: string, now: int)
    | Full(key: string, now: int, u: Rand)
    | BackupSnapshot
    | BackupFast(key: string, fastId: string, now: int)
    | BackupFull(key: string, now: int, carried: bool, u: Rand)
    | Exclude(key: string, excluded: string, cooldown: int, now: int, u: Rand)
    | BackupSingle(excluded: string, cooldown: int, now: int)
    | BackupExclude(key: string, excluded: string, cooldown: int, now: int, u: Rand)
    | Change(refs: seq<MemberRef>)
    | Sweep(now: int)

  datatype Reply =
    | Size(n: nat)
    | Head(ref: MemberRef)
    | Hit(found: Option<string>)
    | Refreshed(ok: bool)
    | Snapshot(hasBackups: bool, n: nat, fastId: Option<string>)
    | Retry(carried: bool)
    | Served(out: Outcome)
    | Marked(ok: bool)
    | Reselected(member: string, mode: Mode)
    | Quiet

  /** What a section needs: members[0] exists, a configuration is non-empty and names its members. */
  ghost predicate Enabled(s: State, sec: Section) {
    (sec.First? ==> s.members != []) && Legal(sec)
  }

  ghost predicate Legal(sec: Section) {
    && (sec.Change? ==> sec.refs != [] && !InRefs(sec.refs, ""))
    && (sec.Read? || sec.Upgrade? || sec.BackupFast? ==> sec.key != "")
    && (sec.Exclude? || sec.BackupSingle? || sec.BackupExclude? ==> sec.cooldown > 0)
  }

  /** The backup pool's write-locked fast path: an existing row that is not idle and whose
      member is still in the group wins (its cooldown is not looked at); otherwise the row is
      dropped and the only backup is bound, provided nothing changed since the snapshot. */
  ghost function FastIn(p: Pool, members: seq<MemberRef>, cds: Cooldowns, ttl: int,
                        key: string, fastId: string, now: int): (r: (Pool, Reply))
  {
    if key in p.bindings && InRefs(members, p.bindings[key].member) && !Expired(p.bindings[key], ttl, now) then
      var m := p.bindings[key].member;
      (Bind(p, key, m, now), Served(Outcome(m, false, false, false)))
    else
      var stale := key in p.bindings && !InRefs(members, p.bindings[key].member);
      var p1 := Drop(p, key);
      if Selectable(p1.refs) && |p1.refs| == 1 && |cds| == 0 && p1.refs[0].id == fastId
      then (Bind(p1, key, fastId, now), Served(Outcome(fastId, true, stale, false)))
      else (p1, Retry(stale))
  }

  /** The full path of the default pool. */
  ghost function FullOf(s: State, ttl: int, key: string, now: int, u: Rand): (State, Outcome) {
    var (p, out) := SelectIn(s.def, s.members, s.cooldowns, ttl, key, now, false, u);
    (s.(def := p), out)
  }

  /** The full path of the backup pool, with its selector checked again. */
  ghost function BackupFullOf(s: State, ttl: int, key: string, now: int, carried: bool, u: Rand): (State, Outcome) {
    if !Selectable(s.bak.refs) then (s, Outcome("", false, carried, true))
    else
      var (p, out) := SelectIn(s.bak, s.members, s.cooldowns, ttl, key, now, carried, u);
      (s.(bak := p), out)
  }

  ghost function ExcludeOf(s: State, key: string, x: string, cooldown: int, now: int, u: Rand): (State, string, Mode) {
    var cds := s.cooldowns[x := now + cooldown];
    var (p, m, mode) := ReselectIn(s.def, s.members, cds, key, x, now, u);
    (s.(def := p, cooldowns := cds), m, mode)
  }

  ghost function BackupExcludeOf(s: State, key: string, x: string, cooldown: int, now: int, u: Rand)
    : (State, string, Mode)
  {
    var cds := s.cooldowns[x := now + cooldown];
    var (p, m, mode) := ReselectIn(s.bak, s.members, cds, key, x, now, u);
    (s.(bak := p, cooldowns := cds), m, mode)
  }

  ghost function Do(s: State, ttl: int, sec: Section): (r: (State, Reply))
    requires Enabled(s, sec)
  {
    match sec
    case Count => (s, Size(|s.members|))
    case First => (s, Head(s.members[0]))
    case Read(key, now) =>
      (s, Hit(if key in s.def.bindings && Live(s.def.bindings[key], s.members, s.cooldowns, ttl, now)
              then Some(s.def.bindings[key].member) else None))
    case Upgrade(key, hit, now) =>
      var b := s.def.bindings;
      if key in b && b[key].member == hit && !Expired(b[key], ttl, now) && !Cooling(s.cooldowns, hit, now)
      then (s.(def := Bind(s.def, key, hit, now)), Refreshed(true))
      else (s, Refreshed(false))
    case Full(key, now, u) => var (s', out) := FullOf(s, ttl, key, now, u); (s', Served(out))
    case BackupSnapshot =>
      var has := Selectable(s.bak.refs);
      (s, Snapshot(has, |s.bak.refs|,
                   if has && |s.bak.refs| == 1 && |s.cooldowns| == 0 then Some(s.bak.refs[0].id) else None))
    case BackupFast(key, fastId, now) =>
      var (p, r) := FastIn(s.bak, s.members, s.cooldowns, ttl, key, fastId, now);
      (s.(bak := p), r)
    case BackupFull(key, now, carried, u) =>
      var (s', out) := BackupFullOf(s, ttl, key, now, carried, u);
      (s', Served(out))
    case Exclude(key, x, cooldown, now, u) =>
      var (s', m, mode) := ExcludeOf(s, key, x, cooldown, now, u);
      (s', Reselected(m, mode))
    case BackupSingle(excluded, cooldown, now) =>
      if Selectable(s.bak.refs) && |s.bak.refs| == 1
      then (s.(cooldowns := s.cooldowns[excluded := now + cooldown]), Marked(true))
      else (s, Marked(false))
    case BackupExclude(key, x, cooldown, now, u) =>
      var (s', m, mode) := BackupExcludeOf(s, key, x, cooldown, now, u);
      (s', Reselected(m, mode))
    case Change(refs) => (Reconfigure(s, refs), Quiet)
    case Sweep(now) => (Swept(s, ttl, now), Quiet)
  }

  // -------------------------------------------------------------------- invariant

  /** Every sticky row names a member of the union, the mirrors count the rows, the empty key
      is never stored, and a published group has members with names. */
  ghost predicate Inv(s: State) {
    && s.members != [] && !InRefs(s.members, "")
    && PoolInv(s.def, s.members) && PoolInv(s.bak, s.members)
  }

  lemma FastKeeps(p: Pool, members: seq<MemberRef>, cds: Cooldowns, ttl: int, key: string, fastId: string, now: int)
    requires PoolInv(p, members) && key != ""
    ensures var r := FastIn(p, members, cds, ttl, key, fastId, now);
      PoolInv(r.0, members) && r.0.refs == p.refs && (r.1.Served? ==> InRefs(members, r.1.out.member))
  {
    if key in p.bindings && InRefs(members, p.bindings[key].member) && !Expired(p.bindings[key], ttl, now) {
      BindCounts(p, key, p.bindings[key].member, now);
    } else {
      DropCounts(p, key);
      BindCounts(Drop(p, key), key, fastId, now);
    }
  }

  lemma ChangeKeeps(s: State, refs: seq<MemberRef>)
    requires Inv(s) && refs != [] && !InRefs(refs, "")
    ensures Inv(Reconfigure(s, refs))
  {
    SurvivorsKeep(s.def, s.members, refs, false);
    SurvivorsKeep(s.bak, s.members, refs, true);
  }

  /** The survivors of one pool under new refs. */
  lemma SurvivorsKeep(p: Pool, members: seq<MemberRef>, refs: seq<MemberRef>, backup: bool)
    requires PoolInv(p, members)
    ensures PoolInv(Without(p.(refs := Side(refs, backup)), Orphans(p.bindings, refs)), refs)
  {
    SideIds(refs, backup);
    WithoutCounts(p, Orphans(p.bindings, refs));
  }

  lemma SweepKeeps(s: State, ttl: int, now: int)
    requires Inv(s)
    ensures Inv(Swept(s, ttl, now))
  {
    SweptKeeps(s.def, s.members, ttl, now);
    SweptKeeps(s.bak, s.members, ttl, now);
  }

  lemma SweptKeeps(p: Pool, members: seq<MemberRef>, ttl: int, now: int)
    requires PoolInv(p, members)
    ensures PoolInv(Without(p, Idle(p.bindings, ttl, now)), members)
  {
    WithoutCounts(p, Idle(p.bindings, ttl, now));
  }

  /** The member a section's reply hands to the caller; "" when it hands out none. */
  ghost function Answer(sec: Section, r: Reply): string {
    match r
    case Head(m) => m.id
    case Refreshed(ok) => if ok && sec.Upgrade? then sec.hit else ""
    case Snapshot(has, n, fastId) => if fastId.Some? then fastId.value else ""
    case Served(out) => out.member
    case Reselected(m, _) => m
    case _ => ""
  }

  lemma PoolsKeep(s: State, def: Pool, bak: Pool, cds: Cooldowns)
    requires Inv(s) && PoolInv(def, s.members) && PoolInv(bak, s.members)
    ensures Inv(State(s.members, def, bak, cds))
  {
  }

  ghost predicate Safe(s: State, ttl: int, sec: Section)
    requires Enabled(s, sec)
  {
    && Inv(Do(s, ttl, sec).0)
    && var a := Answer(sec, Do(s, ttl, sec).1); a == "" || InRefs(s.members, a)
  }

  /** A state that is still sound and an answer that is a member or none. */
  ghost predicate Fine(s: State, s': State, answer: string) {
    Inv(s') && (answer == "" || InRefs(s.members, answer))
  }

  lemma FullKeeps(s: State, ttl: int, key: string, now: int, u: Rand)
    requires Inv(s)
    ensures var (s', out) := FullOf(s, ttl, key, now, u); Fine(s, s', out.member)
  {
    SelectKeeps(s.def, s.members, s.cooldowns, ttl, key, now, false, u);
  }

  lemma BackupFullKeeps(s: State, ttl: int, key: string, now: int, carried: bool, u: Rand)
    requires Inv(s)
    ensures var (s', out) := BackupFullOf(s, ttl, key, now, carried, u); Fine(s, s', out.member)
  {
    if Selectable(s.bak.refs) {
      SelectKeeps(s.bak, s.members, s.cooldowns, ttl, key, now, carried, u);
    }
  }

  lemma ExcludeKeeps(s: State, key: string, x: string, cooldown: int, now: int, u: Rand)
    requires Inv(s)
    ensures var (s', m, _) := ExcludeOf(s, key, x, cooldown, now, u); Fine(s, s', m)
  {
    ReselectKeeps(s.def, s.members, s.cooldowns[x := now + cooldown], key, x, now, u);
  }

  lemma BackupExcludeKeeps(s: State, key: string, x: string, cooldown: int, now: int, u: Rand)
    requires Inv(s)
    ensures var (s', m, _) := BackupExcludeOf(s, key, x, cooldown, now, u); Fine(s, s', m)
  {
    ReselectKeeps(s.bak, s.members, s.cooldowns[x := now + cooldown], key, x, now, u);
  }

  lemma UpgradeKeeps(s: State, ttl: int, key: string, hit: string, now: int)
    requires Inv(s) && Enabled(s, Upgrade(key, hit, now))
    ensures Safe(s, ttl, Upgrade(key, hit, now))
  {
    BindCounts(s.def, key, hit, now);
  }

  lemma BackupFastKeeps(s: State, ttl: int, key: string, fastId: string, now: int)
    requires Inv(s) && Enabled(s, BackupFast(key, fastId, now))
    ensures Safe(s, ttl, BackupFast(key, fastId, now))
  {
    FastKeeps(s.bak, s.members, s.cooldowns, ttl, key, fastId, now);
  }

  lemma LookKeeps(s: State, ttl: int, sec: Section)
    requires Inv(s) && Enabled(s, sec) && (sec.Count? || sec.First? || sec.Read? || sec.BackupSnapshot?)
    ensures Safe(s, ttl, sec)
  {
    if sec.First? {
      assert s.members[0] == Do(s, ttl, sec).1.ref;
    } else if sec.BackupSnapshot? {
      assert s.bak.refs != [] ==> InRefs(s.members, s.bak.refs[0].id);
    }
  }

  /** The two pools split the members by their flag. */
  ghost predicate Partitioned(s: State) {
    s.def.refs == Side(s.members, false) && s.bak.refs == Side(s.members, true)
  }

  lemma SectionKeepsPartition(s: State, ttl: int, sec: Section)
    requires Partitioned(s) && Enabled(s, sec)
    ensures Partitioned(Do(s, ttl, sec).0)
  {
  }

  /** A section whose result is known to be fine is safe. */
  lemma FineIsSafe(s: State, ttl: int, sec: Section, s': State, r: Reply)
    requires Enabled(s, sec) && Do(s, ttl, sec) == (s', r) && Fine(s, s', Answer(sec, r))
    ensures Safe(s, ttl, sec)
  {
  }

  lemma SelectionSafe(s: State, ttl: int, sec: Section)
    requires Inv(s) && Enabled(s, sec) && (sec.Full? || sec.BackupFull?)
    ensures Safe(s, ttl, sec)
  {
    if sec.Full? {
      FullKeeps(s, ttl, sec.key, sec.now, sec.u);
      var r := FullOf(s, ttl, sec.key, sec.now, sec.u);
      FineIsSafe(s, ttl, sec, r.0, Served(r.1));
    } else {
      BackupFullKeeps(s, ttl, sec.key, sec.now, sec.carried, sec.u);
      var r := BackupFullOf(s, ttl, sec.key, sec.now, sec.carried, sec.u);
      FineIsSafe(s, ttl, sec, r.0, Served(r.1));
    }
  }

  lemma FailoverSafe(s: State, ttl: int, sec: Section)
    requires Inv(s) && Enabled(s, sec) && (sec.Exclude? || sec.BackupExclude?)
    ensures Safe(s, ttl, sec)
  {
    var x, cd := sec.excluded, sec.cooldown;
    if sec.Exclude? {
      ExcludeKeeps(s, sec.key, x, cd, sec.now, sec.u);
      var r := ExcludeOf(s, sec.key, x, cd, sec.now, sec.u);
      FineIsSafe(s, ttl, sec, r.0, Reselected(r.1, r.2));
    } else {
      BackupExcludeKeeps(s, sec.key, x, cd, sec.now, sec.u);
      var r := BackupExcludeOf(s, sec.key, x, cd, sec.now, sec.u);
      FineIsSafe(s, ttl, sec, r.0, Reselected(r.1, r.2));
    }
  }

  lemma UpkeepSafe(s: State, ttl: int, sec: Section)
    requires Inv(s) && Enabled(s, sec) && (sec.BackupSingle? || sec.Change? || sec.Sweep?)
    ensures Safe(s, ttl, sec)
  {
    if sec.Change? {
      ChangeKeeps(s, sec.refs);
    } else if sec.Sweep? {
      SweepKeeps(s, ttl, sec.now);
    }
  }

  /** Every section keeps the invariant, and whatever member it hands out is a current one:
      in particular the write-locked re-check, which does not test membership. */
  lemma SectionKeeps(s: State, ttl: int, sec: Section)
    requires Inv(s) && Enabled(s, sec)
    ensures Safe(s, ttl, sec)
  {
    if sec.Full? || sec.BackupFull? {
      SelectionSafe(s, ttl, sec);
    } else if sec.Exclude? || sec.BackupExclude? {
      FailoverSafe(s, ttl, sec);
    } else if sec.BackupSingle? || sec.Change? || sec.Sweep? {
      UpkeepSafe(s, ttl, sec);
    } else if sec.Upgrade? {
      UpgradeKeeps(s, ttl, sec.key, sec.hit, sec.now);
    } else if sec.BackupFast? {
      BackupFastKeeps(s, ttl, sec.key, sec.fastId, sec.now);
    } else {
      LookKeeps(s, ttl, sec);
    }
  }
}
