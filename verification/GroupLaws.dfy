/** What the sections and the whole operations of the group engine do with rows, cooldown rows and times,
    told in the numbers themselves. */
module GroupLaws {
  import opened Options
  import opened WeightedPool
  import opened StickyPool
  import opened GroupSections
  import opened PoolLaws
  import J = GroupJanitor

  lemma NamedPools(s: State)
    requires Inv(s)
    ensures !Stands(s.def.refs, "") && !Stands(s.bak.refs, "")
  {
    assert forall i | 0 <= i < |s.def.refs| :: InRefs(s.members, s.def.refs[i].id);
    assert forall i | 0 <= i < |s.bak.refs| :: InRefs(s.members, s.bak.refs[i].id);
  }

  // ------------------------------------------------------------------------ the lookups

  /** The full path of the default pool. */
  lemma FullLaw(s: State, ttl: int, key: string, now: int, u: Rand)
    requires Inv(s)
    ensures var (s', r) := Do(s, ttl, Full(key, now, u));
      && r.Served? && Looked(s.def, s.members, s.cooldowns, ttl, key, now, false, s'.def, r.out)
      && s'.members == s.members && s'.bak == s.bak && s'.cooldowns == s.cooldowns
  {
    NamedPools(s);
    LookupLaw(s.def, s.members, s.cooldowns, ttl, key, now, false, u);
  }

  ghost predicate Weighted(refs: seq<MemberRef>) {
    refs != [] && forall i | 0 <= i < |refs| :: refs[i].weight > 0.0
  }

  /** The full path of the backup pool; without a weighted backup list it fails. */
  ghost predicate BackupLooked(s: State, ttl: int, key: string, now: int, carried: bool, s': State, out: Outcome) {
    if Weighted(s.bak.refs) then
      s' == s.(bak := s'.bak) && Looked(s.bak, s.members, s.cooldowns, ttl, key, now, carried, s'.bak, out)
    else s' == s && out == Outcome("", false, carried, true)
  }

  lemma BackupFullOfLaw(s: State, ttl: int, key: string, now: int, carried: bool, u: Rand)
    requires Inv(s)
    ensures var (s', out) := BackupFullOf(s, ttl, key, now, carried, u);
      BackupLooked(s, ttl, key, now, carried, s', out)
  {
    NamedPools(s);
    LookupLaw(s.bak, s.members, s.cooldowns, ttl, key, now, carried, u);
  }

  lemma BackupFullLaw(s: State, ttl: int, key: string, now: int, carried: bool, u: Rand)
    requires Inv(s)
    ensures var (s', r) := Do(s, ttl, BackupFull(key, now, carried, u));
      r.Served? && BackupLooked(s, ttl, key, now, carried, s', r.out)
  {
    BackupFullOfLaw(s, ttl, key, now, carried, u);
  }

  /** The optimistic read hits exactly a usable row; the re-check refreshes exactly a row that still names
      the hit, has not idled beyond ttl and does not cool. */
  lemma ReadLaw(s: State, ttl: int, key: string, hit: string, now: int)
    requires key != ""
    ensures Do(s, ttl, Read(key, now)) == (s, Hit(
      if Usable(s.def, s.members, s.cooldowns, ttl, key, now) then Some(s.def.bindings[key].member) else None))
    ensures var b := s.def.bindings;
      Do(s, ttl, Upgrade(key, hit, now))
      == if key in b && b[key].member == hit && now - b[key].boundAt <= ttl
            && (hit in s.cooldowns ==> s.cooldowns[hit] <= now)
         then (s.(def := s.def.(bindings := b[key := Binding(hit, now)])), Refreshed(true)) else (s, Refreshed(false))
  {
  }

  /** What the write-locked fast path does to the backup rows. */
  ghost predicate FastServed(p: Pool, cds: Cooldowns, ttl: int, key: string, fastId: string, now: int, p': Pool,
                             r: Reply)
  {
    var b := p.bindings;
    && p'.refs == p.refs
    && if key in b && now - b[key].boundAt <= ttl then
         && r == Served(Outcome(b[key].member, false, false, false))
         && p'.bindings == b[key := Binding(b[key].member, now)]
       else if Weighted(p.refs) && |p.refs| == 1 && p.refs[0].id == fastId && cds == map[] then
         r == Served(Outcome(fastId, true, false, false)) && p'.bindings == b[key := Binding(fastId, now)]
       else r == Retry(false) && p'.bindings == b - {key}
  }

  lemma FastHitLaw(p: Pool, members: seq<MemberRef>, cds: Cooldowns, ttl: int, key: string, fastId: string, now: int)
    requires PoolInv(p, members) && key in p.bindings && now - p.bindings[key].boundAt <= ttl
    ensures var m := p.bindings[key].member;
      FastIn(p, members, cds, ttl, key, fastId, now)
      == (p.(bindings := p.bindings[key := Binding(m, now)]), Served(Outcome(m, false, false, false)))
  {
  }

  lemma FastMissLaw(p: Pool, members: seq<MemberRef>, cds: Cooldowns, ttl: int, key: string, fastId: string, now: int)
    requires PoolInv(p, members) && !(key in p.bindings && now - p.bindings[key].boundAt <= ttl)
    ensures var rest := p.bindings - {key};
      var (p', r) := FastIn(p, members, cds, ttl, key, fastId, now);
      && p'.refs == p.refs
      && if Weighted(p.refs) && |p.refs| == 1 && p.refs[0].id == fastId && cds == map[]
         then r == Served(Outcome(fastId, true, false, false)) && p'.bindings == rest[key := Binding(fastId, now)]
         else r == Retry(false) && p'.bindings == rest
  {
    assert |cds| == 0 <==> cds == map[];
    assert Drop(p, key).bindings == p.bindings - {key};
  }

  lemma FastInLaw(p: Pool, members: seq<MemberRef>, cds: Cooldowns, ttl: int, key: string, fastId: string, now: int)
    requires PoolInv(p, members)
    ensures var (p', r) := FastIn(p, members, cds, ttl, key, fastId, now);
      FastServed(p, cds, ttl, key, fastId, now, p', r)
  {
    if key in p.bindings && now - p.bindings[key].boundAt <= ttl {
      FastHitLaw(p, members, cds, ttl, key, fastId, now);
    } else {
      FastMissLaw(p, members, cds, ttl, key, fastId, now);
      assert (p.bindings - {key})[key := Binding(fastId, now)] == p.bindings[key := Binding(fastId, now)];
    }
  }

  /** The backup fast path serves the conversation's row exactly when that has not idled beyond ttl, whatever
      cools. Otherwise the row goes, and the only backup is bound from `now` on if it is the one of the
      snapshot, its list weighted, and no cooldown row stored. */
  lemma FastLaw(s: State, ttl: int, key: string, fastId: string, now: int)
    requires Inv(s) && key != ""
    ensures var (s', r) := Do(s, ttl, BackupFast(key, fastId, now));
      s' == s.(bak := s'.bak) && FastServed(s.bak, s.cooldowns, ttl, key, fastId, now, s'.bak, r)
  {
    FastInLaw(s.bak, s.members, s.cooldowns, ttl, key, fastId, now);
  }

  /** The snapshot offers the fast path exactly for the only entry of a weighted backup list, with no
      cooldown row stored. */
  lemma SnapshotLaw(s: State, ttl: int)
    ensures var refs := s.bak.refs;
      Do(s, ttl, BackupSnapshot) == (s, Snapshot(Weighted(refs), |refs|,
        if Weighted(refs) && |refs| == 1 && s.cooldowns == map[] then Some(refs[0].id) else None))
  {
    assert |s.cooldowns| == 0 <==> s.cooldowns == map[];
  }

  // ---------------------------------------------------------------------- the failovers

  /** A failure marks the excluded member, and it alone, until exactly now + cooldown, and moves the
      conversation in its own pool. */
  lemma ExcludeLaw(s: State, ttl: int, key: string, x: string, cd: int, now: int, u: Rand)
    requires Inv(s) && cd > 0
    ensures var (s', r) := Do(s, ttl, Exclude(key, x, cd, now, u));
      && s'.members == s.members && s'.cooldowns == s.cooldowns[x := now + cd] && s'.bak == s.bak
      && r.Reselected? && Moved(s.def, s.cooldowns[x := now + cd], key, x, now, s'.def, r.member, r.mode)
  {
    NamedPools(s);
    FailoverLaw(s.def, s.members, s.cooldowns[x := now + cd], key, x, now, u);
  }

  lemma BackupExcludeLaw(s: State, ttl: int, key: string, x: string, cd: int, now: int, u: Rand)
    requires Inv(s) && cd > 0
    ensures var (s', r) := Do(s, ttl, BackupExclude(key, x, cd, now, u));
      && s'.members == s.members && s'.cooldowns == s.cooldowns[x := now + cd] && s'.def == s.def
      && r.Reselected? && Moved(s.bak, s.cooldowns[x := now + cd], key, x, now, s'.bak, r.member, r.mode)
  {
    NamedPools(s);
    FailoverLaw(s.bak, s.members, s.cooldowns[x := now + cd], key, x, now, u);
  }

  /** A failure of the only backup is marked and goes no further. */
  lemma SingleLaw(s: State, ttl: int, x: string, cd: int, now: int)
    requires cd > 0
    ensures var lone := Weighted(s.bak.refs) && |s.bak.refs| == 1;
      Do(s, ttl, BackupSingle(x, cd, now))
      == (if lone then s.(cooldowns := s.cooldowns[x := now + cd]) else s, Marked(lone))
  {
  }

  // ------------------------------------------------------------ sweeps and configurations

  /** Of two pools, the second has the rows of the first that pass, as they were, and its mirror follows. */
  ghost predicate Filtered(p: Pool, q: Pool, pass: Binding -> bool) {
    && (forall k :: k in q.bindings <==> k in p.bindings && pass(p.bindings[k]))
    && (forall k | k in q.bindings :: q.bindings[k] == p.bindings[k])
    && q.count - |q.bindings| == p.count - |p.bindings|
  }

  /** A janitor pass keeps exactly the rows of both pools used no more than ttl ago, and exactly the cooldown
      rows that end later. */
  lemma JanitorLaw(s: State, ttl: int, now: int)
    ensures var s' := Swept(s, ttl, now);
      && s'.members == s.members && s'.def.refs == s.def.refs && s'.bak.refs == s.bak.refs
      && Filtered(s.def, s'.def, (b: Binding) => now - b.boundAt <= ttl)
      && Filtered(s.bak, s'.bak, (b: Binding) => now - b.boundAt <= ttl)
      && (forall id :: id in s'.cooldowns <==> id in s.cooldowns && s.cooldowns[id] > now)
      && (forall id | id in s'.cooldowns :: s'.cooldowns[id] == s.cooldowns[id])
    ensures Do(s, ttl, Sweep(now)) == (Swept(s, ttl, now), Quiet)
  {
    forall k ensures var d, b := Swept(s, ttl, now).def, Swept(s, ttl, now).bak;
      && (k in d.bindings <==> k in s.def.bindings && now - s.def.bindings[k].boundAt <= ttl)
      && (k in b.bindings <==> k in s.bak.bindings && now - s.bak.bindings[k].boundAt <= ttl)
    {
      SweepLaw(s.def, ttl, now, k);
      SweepLaw(s.bak, ttl, now, k);
    }
    SweepLaw(s.def, ttl, now, "");
    SweepLaw(s.bak, ttl, now, "");
  }

  /** A change of the configuration keeps exactly the rows of configured members, in both pools, and every
      cooldown row; the pools are the two sides of the new list. */
  lemma ConfigurationLaw(s: State, refs: seq<MemberRef>)
    ensures var s' := Reconfigure(s, refs);
      && s'.members == refs && s'.cooldowns == s.cooldowns
      && Filtered(s.def, s'.def, (b: Binding) => Stands(refs, b.member))
      && Filtered(s.bak, s'.bak, (b: Binding) => Stands(refs, b.member))
      && (forall r :: r in s'.def.refs <==> r in refs && !r.backupOnly)
      && (forall r :: r in s'.bak.refs <==> r in refs && r.backupOnly)
  {
    forall k ensures var d, b := Reconfigure(s, refs).def, Reconfigure(s, refs).bak;
      && (k in d.bindings <==> k in s.def.bindings && Stands(refs, s.def.bindings[k].member))
      && (k in b.bindings <==> k in s.bak.bindings && Stands(refs, s.bak.bindings[k].member))
    {
      ChangeLaw(s.def, Side(refs, false), refs, k);
      ChangeLaw(s.bak, Side(refs, true), refs, k);
    }
    ChangeLaw(s.def, Side(refs, false), refs, "");
    ChangeLaw(s.bak, Side(refs, true), refs, "");
    forall r ensures r in Side(refs, false) <==> r in refs && !r.backupOnly
      ensures r in Side(refs, true) <==> r in refs && r.backupOnly
    {
      SideFacts(refs, false, r);
      SideFacts(refs, true, r);
    }
  }

  // ------------------------------------------------------------------- whole operations

  /** An uninterrupted lookup: the only member, when it is a default one, whatever cools, and no row; else
      the lookup of the default pool. */
  lemma GetLaw(s: State, ttl: int, key: string, now: int, u: Rand)
    requires Inv(s)
    ensures var (s', out) := J.GetNow(s, ttl, key, now, u);
      if |s.members| == 1 && !s.members[0].backupOnly
      then s' == s && out == Outcome(s.members[0].id, false, false, false)
      else s' == s.(def := s'.def) && Looked(s.def, s.members, s.cooldowns, ttl, key, now, false, s'.def, out)
  {
    NamedPools(s);
    LookupLaw(s.def, s.members, s.cooldowns, ttl, key, now, false, u);
  }

  /** An uninterrupted backup lookup, fast path and all. */
  lemma GetBackupLaw(s: State, ttl: int, key: string, now: int, u: Rand)
    requires Inv(s)
    ensures var (s', out) := J.GetBackupNow(s, ttl, key, now, u);
      BackupLooked(s, ttl, key, now, false, s', out)
  {
    NamedPools(s);
    LookupLaw(s.bak, s.members, s.cooldowns, ttl, key, now, false, u);
  }

  /** Uninterrupted failures: with one member, or without backups, nothing happens; the only backup is
      marked and nobody else is named; else the section. */
  lemma FailLaw(s: State, ttl: int, key: string, x: string, cd: int, now: int, u: Rand)
    requires Inv(s) && cd > 0
    ensures var (s', m, mode) := J.FailNow(s, key, x, cd, now, u);
      if |s.members| == 1 then s' == s && m == "" && mode == ReselectNone
      else (s', Reselected(m, mode)) == Do(s, ttl, Exclude(key, x, cd, now, u))
    ensures var (s', m, mode) := J.FailBackupNow(s, key, x, cd, now, u);
      if !Weighted(s.bak.refs) then s' == s && m == "" && mode == ReselectNone
      else if |s.bak.refs| == 1 then
        s' == s.(cooldowns := s.cooldowns[x := now + cd]) && m == "" && mode == ReselectNone
      else (s', Reselected(m, mode)) == Do(s, ttl, BackupExclude(key, x, cd, now, u))
  {
  }
}
