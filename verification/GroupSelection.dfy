/** What one selection of the group engine may answer, in all cases. */
module GroupSelection {
  import opened WeightedPool
  import opened StickyPool
  import opened GroupSections

  // ------------------------------------------------------- one selection, all cases

  ghost predicate HasLiveRow(p: Pool, members: seq<MemberRef>, cds: Cooldowns, ttl: int, key: string, now: int) {
    key != "" && key in p.bindings && Live(p.bindings[key], members, cds, ttl, now)
  }

  /** What a selection may answer, told without naming how it picks: the live row if there is
      one; else a healthy pool member, bound unless the key is empty; else, when the whole pool
      cools, the entry that expires first (ties to the lower position) with no row left; else
      a failure. */
  ghost predicate GoodSelection(p: Pool, members: seq<MemberRef>, cds: Cooldowns, ttl: int, key: string, now: int,
                                p': Pool, out: Outcome)
  {
    if HasLiveRow(p, members, cds, ttl, key, now) then
      && out == Outcome(p.bindings[key].member, false, false, false)
      && p'.bindings == p.bindings[key := Binding(out.member, now)]
    else if Selectable(p.refs) && !AllCooling(p.refs, cds, now) then
      && !out.failed && InRefs(p.refs, out.member) && !Cooling(cds, out.member, now)
      && (out.newlyBound <==> key != "")
      && p'.bindings == if key == "" then p.bindings else p.bindings[key := Binding(out.member, now)]
    else
      && (key != "" ==> key !in p'.bindings) && !out.newlyBound
      && (out.failed <==> p.refs == [] || !AllCooling(p.refs, cds, now))
      && (!out.failed ==> exists i :: ExpiresFirst(p.refs, cds, |p.refs|, i) && p.refs[i].id == out.member)
  }

  lemma SelectionIsGood(p: Pool, members: seq<MemberRef>, cds: Cooldowns, ttl: int, key: string, now: int,
                        carried: bool, u: Rand)
    requires PoolInv(p, members) && !InRefs(p.refs, "")
    ensures var r := SelectIn(p, members, cds, ttl, key, now, carried, u);
      GoodSelection(p, members, cds, ttl, key, now, r.0, r.1)
  {
    if !HasLiveRow(p, members, cds, ttl, key, now) {
      var out := CoolingIds(cds, now);
      assert AllCooling(p.refs, cds, now) <==> AllIn(p.refs, out);
      var pick := PickHealthy(p.refs, out, u);
      PickFacts(p.refs, out, u);
      SoonestFacts(p.refs, cds, now);
      if pick != "" {
        assert Drop(p, key).bindings[key := Binding(pick, now)] == p.bindings[key := Binding(pick, now)];
      }
    }
  }

  /** Consequently a cooling member is served only when the whole pool cools. */
  lemma NeverCoolingUnlessAll(p: Pool, members: seq<MemberRef>, cds: Cooldowns, ttl: int, key: string, now: int,
                              carried: bool, u: Rand)
    requires PoolInv(p, members) && !InRefs(p.refs, "")
    ensures var r := SelectIn(p, members, cds, ttl, key, now, carried, u);
      !r.1.failed && Cooling(cds, r.1.member, now) ==>
        AllCooling(p.refs, cds, now) && !r.1.newlyBound && (key != "" ==> key !in r.0.bindings)
        && exists i :: ExpiresFirst(p.refs, cds, |p.refs|, i) && p.refs[i].id == r.1.member
  {
    SelectionIsGood(p, members, cds, ttl, key, now, carried, u);
  }

  /** The probe the two-pool picker consults before it asks the default pool. */
  ghost predicate DefaultPoolHealthy(s: State, now: int) {
    Selectable(s.def.refs) && exists i :: 0 <= i < |s.def.refs| && !Cooling(s.cooldowns, s.def.refs[i].id, now)
  }

  /** The probe is exact: it says yes precisely when a fresh selection of the default pool
      serves a healthy default member, whatever the draw. */
  lemma ProbeIsExact(s: State, ttl: int, now: int, u: Rand)
    requires Inv(s)
    ensures var out := Do(s, ttl, Full("", now, u)).1.out;
      DefaultPoolHealthy(s, now)
      <==> (!out.failed && InRefs(s.def.refs, out.member) && !Cooling(s.cooldowns, out.member, now))
  {
    assert !InRefs(s.def.refs, "");
    SelectionIsGood(s.def, s.members, s.cooldowns, ttl, "", now, false, u);
    var out := Do(s, ttl, Full("", now, u)).1.out;
    if !out.failed && InRefs(s.def.refs, out.member) && !Cooling(s.cooldowns, out.member, now) {
      var i :| 0 <= i < |s.def.refs| && s.def.refs[i].id == out.member;
    }
  }

  /** A row that is not idle and names a cooling member. */
  ghost predicate HeldByCooling(s: State, b: Binding, ttl: int, now: int) {
    !Expired(b, ttl, now) && Cooling(s.cooldowns, b.member, now)
  }

  /** The backup fast path does not look at cooldowns again once it holds the write lock: it serves a
      cooling member exactly when the conversation has a row for one that is neither idle nor gone. */
  lemma FastPathServesCoolingIff(s: State, ttl: int, key: string, fastId: string, now: int)
    requires Inv(s) && key != ""
    ensures var r := Do(s, ttl, BackupFast(key, fastId, now)).1;
      r.Served? && Cooling(s.cooldowns, r.out.member, now)
      <==> key in s.bak.bindings && HeldByCooling(s, s.bak.bindings[key], ttl, now)
  {
    assert |s.cooldowns| == 0 ==> forall id :: !Cooling(s.cooldowns, id, now);
  }
}
