/** Sticky rows over one weighted pool: the part of a lookup and of a failover that both engines
    (pkg/grouplb, pkg/credentiallb) share, as functions of the pool. */
module StickyPool {
  import opened WeightedPool

  datatype Binding = Binding(member: string, boundAt: int)

  /** One sub-pool: its members in order, its sticky rows and the O(1) mirror of their number. */
  datatype Pool = Pool(refs: seq<MemberRef>, bindings: map<string, Binding>, count: int)

  datatype Outcome = Outcome(member: string, newlyBound: bool, staleRepaired: bool, failed: bool)

  datatype Mode = ReselectHealthy | ReselectSoonestExpiry | ReselectNone

  predicate Expired(b: Binding, ttl: int, now: int) {
    now - b.boundAt > ttl
  }

  /** The test that lets a sticky row be served: not idle for too long, its member still in
      either pool, and not cooling. */
  ghost predicate Live(b: Binding, members: seq<MemberRef>, cds: Cooldowns, ttl: int, now: int) {
    !Expired(b, ttl, now) && InRefs(members, b.member) && !Cooling(cds, b.member, now)
  }

  ghost function Drop(p: Pool, key: string): Pool {
    if key in p.bindings then p.(bindings := p.bindings - {key}, count := p.count - 1) else p
  }

  ghost function Bind(p: Pool, key: string, member: string, now: int): Pool {
    p.(bindings := p.bindings[key := Binding(member, now)],
       count := p.count + if key in p.bindings then 0 else 1)
  }

  /** A fresh selection: pick among the healthy and bind, or fall back to the first to expire. */
  ghost function FreshIn(p: Pool, cds: Cooldowns, key: string, now: int, stale: bool, u: Rand): (r: (Pool, Outcome)) {
    var pick := PickHealthy(p.refs, CoolingIds(cds, now), u);
    if pick == "" then
      var soonest := Soonest(p.refs, cds, now);
      (p, Outcome(soonest, false, stale, soonest == ""))
    else if key == "" then (p, Outcome(pick, false, stale, false))
    else (Bind(p, key, pick, now), Outcome(pick, true, stale, false))
  }

  /** The full selection path of either pool. `carried` is a repair signal of an earlier
      section of the same call. */
  ghost function SelectIn(p: Pool, members: seq<MemberRef>, cds: Cooldowns, ttl: int,
                          key: string, now: int, carried: bool, u: Rand): (r: (Pool, Outcome))
  {
    if key != "" && key in p.bindings && Live(p.bindings[key], members, cds, ttl, now) then
      var m := p.bindings[key].member;
      (Bind(p, key, m, now), Outcome(m, false, false, false))
    else
      var stale := carried || (key != "" && key in p.bindings && !InRefs(members, p.bindings[key].member));
      FreshIn(if key == "" then p else Drop(p, key), cds, key, now, stale, u)
  }

  /** The rebinding half of exclude-and-reselect, after the mark. */
  ghost function ReselectIn(p: Pool, members: seq<MemberRef>, cds: Cooldowns,
                            key: string, excluded: string, now: int, u: Rand): (r: (Pool, string, Mode))
  {
    if key != "" && key in p.bindings && p.bindings[key].member != excluded
       && !Cooling(cds, p.bindings[key].member, now) && InRefs(members, p.bindings[key].member) then
      (p, p.bindings[key].member, ReselectHealthy)
    else
      var pick := PickHealthy(p.refs, CoolingIds(cds, now), u);
      if pick == "" || pick == excluded then
        var soonest := Soonest(p.refs, cds, now);
        (p, soonest, if soonest == "" then ReselectNone else ReselectSoonestExpiry)
      else if key == "" then (p, pick, ReselectHealthy)
      else (Bind(p, key, pick, now), pick, ReselectHealthy)
  }

  ghost function Orphans(rows: map<string, Binding>, members: seq<MemberRef>): set<string> {
    set k | k in rows && !InRefs(members, rows[k].member)
  }

  ghost function Idle(rows: map<string, Binding>, ttl: int, now: int): set<string> {
    set k | k in rows && Expired(rows[k], ttl, now)
  }

  ghost function Without(p: Pool, keys: set<string>): Pool {
    p.(bindings := p.bindings - keys, count := p.count - |keys|)
  }

  ghost predicate PoolInv(p: Pool, members: seq<MemberRef>) {
    && p.count == |p.bindings|
    && "" !in p.bindings
    && (forall k | k in p.bindings :: InRefs(members, p.bindings[k].member))
    && (forall i | 0 <= i < |p.refs| :: InRefs(members, p.refs[i].id))
  }

  lemma PoolIdsAreMembers(p: Pool, members: seq<MemberRef>, id: string)
    requires PoolInv(p, members) && InRefs(p.refs, id)
    ensures InRefs(members, id)
  {
    var i :| 0 <= i < |p.refs| && p.refs[i].id == id;
  }

  lemma WithoutCounts(p: Pool, keys: set<string>)
    requires p.count == |p.bindings| && keys <= p.bindings.Keys
    ensures Without(p, keys).count == |Without(p, keys).bindings|
  {
    assert (p.bindings - keys).Keys == p.bindings.Keys - keys;
  }

  lemma BindCounts(p: Pool, key: string, m: string, now: int)
    requires p.count == |p.bindings|
    ensures Bind(p, key, m, now).count == |Bind(p, key, m, now).bindings|
  {
    assert p.bindings[key := Binding(m, now)].Keys == p.bindings.Keys + {key};
  }

  lemma DropCounts(p: Pool, key: string)
    requires p.count == |p.bindings|
    ensures Drop(p, key).count == |Drop(p, key).bindings|
  {
    assert (p.bindings - {key}).Keys == p.bindings.Keys - {key};
  }

  lemma FreshKeeps(p: Pool, members: seq<MemberRef>, cds: Cooldowns, key: string, now: int, stale: bool, u: Rand)
    requires PoolInv(p, members)
    ensures var r := FreshIn(p, cds, key, now, stale, u);
      PoolInv(r.0, members) && r.0.refs == p.refs && (r.1.member == "" || InRefs(members, r.1.member))
  {
    var m := FreshIn(p, cds, key, now, stale, u).1.member;
    PickFacts(p.refs, CoolingIds(cds, now), u);
    SoonestFacts(p.refs, cds, now);
    if m != "" {
      PoolIdsAreMembers(p, members, m);
      BindCounts(p, key, m, now);
    }
  }

  lemma SelectKeeps(p: Pool, members: seq<MemberRef>, cds: Cooldowns, ttl: int, key: string, now: int, carried: bool,
                    u: Rand)
    requires PoolInv(p, members)
    ensures var r := SelectIn(p, members, cds, ttl, key, now, carried, u);
      PoolInv(r.0, members) && r.0.refs == p.refs && (r.1.member == "" || InRefs(members, r.1.member))
  {
    if key != "" && key in p.bindings && Live(p.bindings[key], members, cds, ttl, now) {
      BindCounts(p, key, p.bindings[key].member, now);
    } else {
      var stale := carried || (key != "" && key in p.bindings && !InRefs(members, p.bindings[key].member));
      var p1 := if key == "" then p else Drop(p, key);
      DropCounts(p, key);
      assert PoolInv(p1, members);
      FreshKeeps(p1, members, cds, key, now, stale, u);
    }
  }

  lemma ReselectKeeps(p: Pool, members: seq<MemberRef>, cds: Cooldowns, key: string, x: string, now: int, u: Rand)
    requires PoolInv(p, members)
    ensures var r := ReselectIn(p, members, cds, key, x, now, u);
      PoolInv(r.0, members) && r.0.refs == p.refs && (r.1 == "" || InRefs(members, r.1))
  {
    var r := ReselectIn(p, members, cds, key, x, now, u);
    PickFacts(p.refs, CoolingIds(cds, now), u);
    SoonestFacts(p.refs, cds, now);
    if r.1 != "" && InRefs(p.refs, r.1) {
      PoolIdsAreMembers(p, members, r.1);
    }
    BindCounts(p, key, r.1, now);
  }
}
