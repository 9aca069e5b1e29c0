/** The per-group state as the source keeps it: an object whose fields the lock sections update in
    place, with loops over refs and over map keys, prebuilt selectors and count mirrors. Each
    section is proved to do what its account in GroupSections says; each whole operation, fast
    paths included, is proved to compute the fast-path-free account in GroupJanitor. */
module GroupStateObject {
  import opened Options
  import opened WeightedPool
  import opened StickyPool
  import opened GroupSections
  import J = GroupJanitor

  method MemberInRefs(refs: seq<MemberRef>, id: string) returns (found: bool)
    ensures found <==> InRefs(refs, id)
  {
    for i := 0 to |refs|
      invariant forall k | 0 <= k < i :: refs[k].id != id
    {
      if refs[i].id == id {
        return true;
      }
    }
    return false;
  }

  /** The janitor's pass over one binding map: delete idle rows one by one, with the mirror. */
  method SweepRows(rows: map<string, Binding>, count: int, ttl: int, now: int)
    returns (rows': map<string, Binding>, count': int)
    ensures rows' == rows - Idle(rows, ttl, now) && count' == count - |Idle(rows, ttl, now)|
  {
    rows', count' := rows, count;
    var left := rows.Keys;
    ghost var gone: set<string> := {};
    while left != {}
      invariant left <= rows.Keys && gone <= rows.Keys && gone !! left
      invariant rows' == rows - gone && count' == count - |gone|
      invariant forall k | k in rows && k !in left :: k in gone <==> Expired(rows[k], ttl, now)
      decreases |left|
    {
      var k :| k in left;
      left := left - {k};
      if Expired(rows[k], ttl, now) {
        rows', count' := rows' - {k}, count' - 1;
        gone := gone + {k};
      }
    }
    assert gone == Idle(rows, ttl, now);
  }

  /** The survivor filter over one binding map. */
  method DropOrphans(rows: map<string, Binding>, count: int, refs: seq<MemberRef>)
    returns (rows': map<string, Binding>, count': int)
    ensures rows' == rows - Orphans(rows, refs) && count' == count - |Orphans(rows, refs)|
  {
    rows', count' := rows, count;
    var left := rows.Keys;
    ghost var gone: set<string> := {};
    while left != {}
      invariant left <= rows.Keys && gone <= rows.Keys && gone !! left
      invariant rows' == rows - gone && count' == count - |gone|
      invariant forall k | k in rows && k !in left :: k in gone <==> !InRefs(refs, rows[k].member)
      decreases |left|
    {
      var k :| k in left;
      left := left - {k};
      var survives := MemberInRefs(refs, rows[k].member);
      if !survives {
        rows', count' := rows' - {k}, count' - 1;
        gone := gone + {k};
      }
    }
    assert gone == Orphans(rows, refs);
  }

  method SweepCooldowns(cds: Cooldowns, now: int) returns (cds': Cooldowns)
    ensures cds' == map id | id in cds && cds[id] > now :: cds[id]
  {
    cds' := cds;
    var left := cds.Keys;
    while left != {}
      invariant left <= cds.Keys
      invariant cds' == map id | id in cds && (id in left || cds[id] > now) :: cds[id]
      decreases |left|
    {
      var id :| id in left;
      left := left - {id};
      if cds[id] <= now {
        cds' := cds' - {id};
      }
    }
  }

  /** The tail of a selection in either pool: weighted pick, or the first to expire, or nothing. */
  method SelectFresh(sel: Option<Selector>, refs: seq<MemberRef>, rows: map<string, Binding>, count: int,
                     cds: Cooldowns, key: string, now: int, stale: bool, u: Rand)
    returns (rows': map<string, Binding>, count': int, out: Outcome)
    requires sel.Some? <==> Selectable(refs)
    requires sel.Some? ==> SelectorFor(sel.value, refs)
    requires !InRefs(refs, "") && (key in rows ==> key == "")
    ensures (Pool(refs, rows', count'), out) == FreshIn(Pool(refs, rows, count), cds, key, now, stale, u)
  {
    rows', count' := rows, count;
    var pick := PickHealthyLocked(sel, refs, cds, now, u);
    if pick == "" {
      var soonest, all := SoonestLocked(refs, cds, now);
      out := Outcome(soonest, false, stale, !all || soonest == "");
    } else if key == "" {
      out := Outcome(pick, false, stale, false);
    } else {
      rows', count' := rows[key := Binding(pick, now)], count + 1;
      out := Outcome(pick, true, stale, false);
    }
  }

  /** The tail of an exclusion in either pool, after the mark. */
  method Rebind(sel: Option<Selector>, refs: seq<MemberRef>, rows: map<string, Binding>, count: int,
                members: seq<MemberRef>, cds: Cooldowns, key: string, excluded: string, now: int, u: Rand)
    returns (rows': map<string, Binding>, count': int, member: string, mode: Mode)
    requires sel.Some? <==> Selectable(refs)
    requires sel.Some? ==> SelectorFor(sel.value, refs)
    requires !InRefs(refs, "")
    ensures (Pool(refs, rows', count'), member, mode)
      == ReselectIn(Pool(refs, rows, count), members, cds, key, excluded, now, u)
  {
    rows', count' := rows, count;
    if key != "" && key in rows && rows[key].member != excluded {
      var found := MemberInRefs(members, rows[key].member);
      if !Cooling(cds, rows[key].member, now) && found {
        member, mode := rows[key].member, ReselectHealthy;
        return;
      }
    }
    var pick := PickHealthyLocked(sel, refs, cds, now, u);
    if pick == "" || pick == excluded {
      var soonest, all := SoonestLocked(refs, cds, now);
      member, mode := soonest, if all then ReselectSoonestExpiry else ReselectNone;
    } else {
      member, mode := pick, ReselectHealthy;
      if key != "" {
        if key !in rows {
          count' := count + 1;
        }
        rows' := rows[key := Binding(pick, now)];
      }
    }
  }

  lemma FastHits(p: Pool, members: seq<MemberRef>, cds: Cooldowns, ttl: int, key: string, fastId: string, now: int)
    requires key in p.bindings && InRefs(members, p.bindings[key].member) && !Expired(p.bindings[key], ttl, now)
    ensures var b := p.bindings[key];
      FastIn(p, members, cds, ttl, key, fastId, now)
      == (Pool(p.refs, p.bindings[key := b.(boundAt := now)], p.count), Served(Outcome(b.member, false, false, false)))
  {
  }

  lemma FastMisses(p: Pool, members: seq<MemberRef>, cds: Cooldowns, ttl: int, key: string, fastId: string, now: int)
    requires key in p.bindings ==> !InRefs(members, p.bindings[key].member) || Expired(p.bindings[key], ttl, now)
    ensures var rows, count := p.bindings - {key}, if key in p.bindings then p.count - 1 else p.count;
      var stale := key in p.bindings && !InRefs(members, p.bindings[key].member);
      FastIn(p, members, cds, ttl, key, fastId, now)
      == if Selectable(p.refs) && |p.refs| == 1 && |cds| == 0 && p.refs[0].id == fastId
         then (Pool(p.refs, rows[key := Binding(fastId, now)], count + 1), Served(Outcome(fastId, true, stale, false)))
         else (Pool(p.refs, rows, count), Retry(stale))
  {
    if key !in p.bindings {
      assert p.bindings - {key} == p.bindings;
    }
  }

  /** Whether the conversation's row can be served as it is, and whether its member is gone. */
  method RowStatus(rows: map<string, Binding>, members: seq<MemberRef>, key: string, ttl: int, now: int)
    returns (live: bool, stale: bool)
    ensures live <==> key in rows && InRefs(members, rows[key].member) && !Expired(rows[key], ttl, now)
    ensures stale <==> key in rows && !InRefs(members, rows[key].member)
  {
    if key !in rows {
      return false, false;
    }
    var found := MemberInRefs(members, rows[key].member);
    return found && !Expired(rows[key], ttl, now), !found;
  }

  /** The body of the backup fast path, under the write lock. */
  method OnlyBackup(sel: Option<Selector>, refs: seq<MemberRef>, rows: map<string, Binding>, count: int,
                    members: seq<MemberRef>, cds: Cooldowns, ttl: int, key: string, fastId: string, now: int)
    returns (rows': map<string, Binding>, count': int, r: Reply)
    requires sel.Some? <==> Selectable(refs)
    ensures (Pool(refs, rows', count'), r) == FastIn(Pool(refs, rows, count), members, cds, ttl, key, fastId, now)
  {
    var live, stale := RowStatus(rows, members, key, ttl, now);
    if live {
      FastHits(Pool(refs, rows, count), members, cds, ttl, key, fastId, now);
      rows', count' := rows[key := rows[key].(boundAt := now)], count;
      r := Served(Outcome(rows[key].member, false, false, false));
      return;
    }
    FastMisses(Pool(refs, rows, count), members, cds, ttl, key, fastId, now);
    rows', count' := rows - {key}, if key in rows then count - 1 else count;
    if sel.Some? && |refs| == 1 && |cds| == 0 && refs[0].id == fastId {
      rows', count' := rows'[key := Binding(fastId, now)], count' + 1;
      r := Served(Outcome(fastId, true, stale, false));
    } else {
      r := Retry(stale);
    }
  }

  class GroupState {
    var members: seq<MemberRef>
    var defaultMembers: seq<MemberRef>
    var selector: Option<Selector>
    var backupMembers: seq<MemberRef>
    var backupSelector: Option<Selector>
    var bindings: map<string, Binding>
    var backupBindings: map<string, Binding>
    var cooldowns: Cooldowns
    var bindingsCount: int
    var backupBindingsCount: int

    ghost predicate Valid()
      reads this
    {
      && (selector.Some? <==> Selectable(defaultMembers))
      && (selector.Some? ==> SelectorFor(selector.value, defaultMembers))
      && (backupSelector.Some? <==> Selectable(backupMembers))
      && (backupSelector.Some? ==> SelectorFor(backupSelector.value, backupMembers))
      && !InRefs(defaultMembers, "") && !InRefs(backupMembers, "")
    }

    ghost function View(): State
      reads this
    {
      State(members, DefaultPool(), BackupPool(), cooldowns)
    }

    ghost function DefaultPool(): Pool
      reads this
    {
      Pool(defaultMembers, bindings, bindingsCount)
    }

    ghost function BackupPool(): Pool
      reads this
    {
      Pool(backupMembers, backupBindings, backupBindingsCount)
    }

    /** A new group as it is published: empty maps, then the refs. */
    constructor (refs: seq<MemberRef>)
      requires !InRefs(refs, "")
      ensures Valid() && View() == NewState(refs)
    {
      members, defaultMembers, backupMembers := [], [], [];
      selector, backupSelector := None, None;
      bindings, backupBindings, cooldowns := map[], map[], map[];
      bindingsCount, backupBindingsCount := 0, 0;
      new;
      ApplyRefs(refs);
    }

    /** applyRefsLocked: partition, copy, rebuild both selectors. */
    method ApplyRefs(refs: seq<MemberRef>)
      requires !InRefs(refs, "")
      modifies this`members, this`defaultMembers, this`selector, this`backupMembers, this`backupSelector
      ensures Valid() && members == refs
      ensures defaultMembers == Side(refs, false) && backupMembers == Side(refs, true)
    {
      var defaults, backups := [], [];
      for i := 0 to |refs|
        invariant defaults == Side(refs[..i], false) && backups == Side(refs[..i], true)
      {
        assert refs[..i + 1][..i] == refs[..i];
        if refs[i].backupOnly {
          backups := backups + [refs[i]];
        } else {
          defaults := defaults + [refs[i]];
        }
      }
      assert refs[..|refs|] == refs;
      SideIds(refs, false);
      SideIds(refs, true);
      members, defaultMembers, backupMembers := refs, defaults, backups;
      selector := NewSelector(defaults);
      backupSelector := NewSelector(backups);
    }

    /** OnGroupChanged on an existing group with a non-empty list. */
    method OnGroupChanged(refs: seq<MemberRef>)
      requires refs != [] && !InRefs(refs, "")
      modifies this
      ensures Valid() && View() == Reconfigure(old(View()), refs)
    {
      var rows, count := DropOrphans(bindings, bindingsCount, refs);
      var backupRows, backupCount := DropOrphans(backupBindings, backupBindingsCount, refs);
      ApplyRefs(refs);
      bindings, bindingsCount, backupBindings, backupBindingsCount := rows, count, backupRows, backupCount;
      ghost var s := old(View());
      assert DefaultPool() == Without(s.def.(refs := Side(refs, false)), Orphans(s.def.bindings, refs));
      assert BackupPool() == Without(s.bak.(refs := Side(refs, true)), Orphans(s.bak.bindings, refs));
    }

    /** One janitor pass over this group: cooldowns first, then both binding maps. */
    method SweepOnce(ttl: int, now: int)
      requires Valid()
      modifies this`cooldowns, this`bindings, this`bindingsCount, this`backupBindings, this`backupBindingsCount
      ensures Valid() && View() == Swept(old(View()), ttl, now)
    {
      cooldowns := SweepCooldowns(cooldowns, now);
      bindings, bindingsCount := SweepRows(bindings, bindingsCount, ttl, now);
      backupBindings, backupBindingsCount := SweepRows(backupBindings, backupBindingsCount, ttl, now);
    }

    /** DefaultPoolHealthy. */
    method DefaultPoolHealthy(now: int) returns (healthy: bool)
      requires Valid()
      ensures healthy <==> Selectable(defaultMembers) && !AllCooling(defaultMembers, cooldowns, now)
    {
      if selector.None? {
        return false;
      }
      for i := 0 to |defaultMembers|
        invariant forall k | 0 <= k < i :: Cooling(cooldowns, defaultMembers[k].id, now)
      {
        if !Cooling(cooldowns, defaultMembers[i].id, now) {
          return true;
        }
      }
      return false;
    }

    // ---------------------------------------------------- sections of the default pool

    method ReadBinding(key: string, ttl: int, now: int) returns (hit: Option<string>)
      requires key != ""
      ensures Hit(hit) == Do(View(), ttl, Read(key, now)).1
    {
      hit := None;
      if key in bindings && !Expired(bindings[key], ttl, now) {
        var found := MemberInRefs(members, bindings[key].member);
        if found && !Cooling(cooldowns, bindings[key].member, now) {
          hit := Some(bindings[key].member);
        }
      }
    }

    method UpgradeBinding(key: string, hit: string, ttl: int, now: int) returns (ok: bool)
      requires key != "" && Valid()
      modifies this`bindings
      ensures Valid() && (View(), Refreshed(ok)) == Do(old(View()), ttl, Upgrade(key, hit, now))
    {
      ok := key in bindings && bindings[key].member == hit && !Expired(bindings[key], ttl, now)
            && !Cooling(cooldowns, hit, now);
      if ok {
        bindings := bindings[key := bindings[key].(boundAt := now)];
      }
    }

    method FullPath(key: string, ttl: int, now: int, u: Rand) returns (out: Outcome)
      requires Valid()
      modifies this`bindings, this`bindingsCount
      ensures Valid()
      ensures (DefaultPool(), out) == SelectIn(old(DefaultPool()), members, cooldowns, ttl, key, now, false, u)
    {
      var stale := false;
      if key != "" && key in bindings {
        var b := bindings[key];
        var exists_ := MemberInRefs(members, b.member);
        if !Expired(b, ttl, now) && exists_ && !Cooling(cooldowns, b.member, now) {
          bindings := bindings[key := b.(boundAt := now)];
          return Outcome(b.member, false, false, false);
        }
        stale := !exists_;
        bindings, bindingsCount := bindings - {key}, bindingsCount - 1;
      }
      bindings, bindingsCount, out :=
        SelectFresh(selector, defaultMembers, bindings, bindingsCount, cooldowns, key, now, stale, u);
    }

    /** getOrSelect, uninterrupted: the single-member shortcut, the optimistic read with its
        write-locked re-check, then the full path. */
    method GetOrSelect(key: string, ttl: int, now: int, u: Rand) returns (out: Outcome)
      requires Valid() && Inv(View())
      modifies this`bindings, this`bindingsCount
      ensures Valid() && (View(), out) == J.GetNow(old(View()), ttl, key, now, u)
    {
      if |members| == 1 && !members[0].backupOnly {
        return Outcome(members[0].id, false, false, false);
      }
      if key != "" {
        var hit := ReadBinding(key, ttl, now);
        if hit.Some? {
          var ok := UpgradeBinding(key, hit.value, ttl, now);
          if ok {
            return Outcome(hit.value, false, false, false);
          }
        }
      }
      out := FullPath(key, ttl, now, u);
    }

    /** ExcludeAndReselect, uninterrupted. */
    method ExcludeAndReselect(key: string, excluded: string, cooldown: int, now: int, u: Rand)
      returns (member: string, mode: Mode)
      requires Valid() && cooldown > 0
      modifies this`bindings, this`bindingsCount, this`cooldowns
      ensures Valid() && (View(), member, mode) == J.FailNow(old(View()), key, excluded, cooldown, now, u)
    {
      if |members| <= 1 {
        return "", ReselectNone;
      }
      cooldowns := cooldowns[excluded := now + cooldown];
      bindings, bindingsCount, member, mode :=
        Rebind(selector, defaultMembers, bindings, bindingsCount, members, cooldowns, key, excluded, now, u);
    }

    // ----------------------------------------------------- sections of the backup pool

    /** The write-locked fast path for the only backup. */
    method BackupFastPath(key: string, fastId: string, ttl: int, now: int) returns (r: Reply)
      requires key != "" && Valid()
      modifies this`backupBindings, this`backupBindingsCount
      ensures Valid()
      ensures (BackupPool(), r) == FastIn(old(BackupPool()), members, cooldowns, ttl, key, fastId, now)
    {
      backupBindings, backupBindingsCount, r :=
        OnlyBackup(backupSelector, backupMembers, backupBindings, backupBindingsCount, members, cooldowns, ttl, key,
            fastId, now);
    }

    method BackupFullPath(key: string, ttl: int, now: int, carried: bool, u: Rand) returns (out: Outcome)
      requires Valid() && Selectable(backupMembers)
      modifies this`backupBindings, this`backupBindingsCount
      ensures Valid()
      ensures (BackupPool(), out) == SelectIn(old(BackupPool()), members, cooldowns, ttl, key, now, carried, u)
    {
      var stale := carried;
      if key != "" && key in backupBindings {
        var b := backupBindings[key];
        var found := MemberInRefs(members, b.member);
        if !Expired(b, ttl, now) && found && !Cooling(cooldowns, b.member, now) {
          backupBindings := backupBindings[key := b.(boundAt := now)];
          return Outcome(b.member, false, false, false);
        }
        stale := carried || !found;
        backupBindings, backupBindingsCount := backupBindings - {key}, backupBindingsCount - 1;
      }
      backupBindings, backupBindingsCount, out :=
        SelectFresh(backupSelector, backupMembers, backupBindings, backupBindingsCount, cooldowns, key, now, stale, u);
    }

    /** pickBackupMember, uninterrupted: the snapshot, the fast path for a lone healthy backup,
        then the full path. The fast path computes what the full path would. */
    method PickBackupMember(key: string, ttl: int, now: int, u: Rand) returns (out: Outcome)
      requires Valid() && Inv(View())
      modifies this`backupBindings, this`backupBindingsCount
      ensures Valid() && (View(), out) == J.GetBackupNow(old(View()), ttl, key, now, u)
    {
      if backupSelector.None? || |backupMembers| == 0 {
        return Outcome("", false, false, true);
      }
      if |backupMembers| == 1 && |cooldowns| == 0 {
        FastIsFull(BackupPool(), members, cooldowns, ttl, key, now, u);
        if key == "" {
          return Outcome(backupMembers[0].id, false, false, false);
        }
        var r := BackupFastPath(key, backupMembers[0].id, ttl, now);
        return r.out;
      }
      out := BackupFullPath(key, ttl, now, false, u);
    }

    /** ExcludeAndBackupReselect, uninterrupted. */
    method ExcludeAndBackupReselect(key: string, excluded: string, cooldown: int, now: int, u: Rand)
      returns (member: string, mode: Mode)
      requires Valid() && cooldown > 0
      modifies this`backupBindings, this`backupBindingsCount, this`cooldowns
      ensures Valid() && (View(), member, mode) == J.FailBackupNow(old(View()), key, excluded, cooldown, now, u)
    {
      if backupSelector.None? || |backupMembers| == 0 {
        return "", ReselectNone;
      }
      cooldowns := cooldowns[excluded := now + cooldown];
      if |backupMembers| == 1 {
        return "", ReselectNone;
      }
      backupBindings, backupBindingsCount, member, mode :=
        Rebind(backupSelector, backupMembers, backupBindings, backupBindingsCount, members, cooldowns, key, excluded,
            now, u);
    }
  }

  /** With one member and no cooldown rows every draw picks that member. */
  lemma LonePick(refs: seq<MemberRef>, u: Rand)
    requires |refs| == 1 && Selectable(refs) && !InRefs(refs, "")
    ensures PickHealthy(refs, {}, u) == refs[0].id
  {
    assert !AllIn(refs, {}) by { assert refs[0].id !in {}; }
  }

  lemma FastIsFull(p: Pool, members: seq<MemberRef>, cds: Cooldowns, ttl: int, key: string, now: int, u: Rand)
    requires |p.refs| == 1 && Selectable(p.refs) && !InRefs(p.refs, "") && |cds| == 0 && PoolInv(p, members)
    ensures var full := SelectIn(p, members, cds, ttl, key, now, false, u);
      if key == "" then full == (p, Outcome(p.refs[0].id, false, false, false))
      else FastIn(p, members, cds, ttl, key, p.refs[0].id, now) == (full.0, Served(full.1))
  {
    LonePick(p.refs, u);
    assert CoolingIds(cds, now) == {};
    assert forall id :: !Cooling(cds, id, now);
  }
}
