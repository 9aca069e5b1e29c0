/** What a lookup and a failover of one pool do with times and weights, told in the numbers themselves:
    the reference against which the selection of both engines is held. */
module PoolLaws {
  import opened WeightedPool
  import opened StickyPool

  /** Somebody can be drawn: the list is weighted, and one entry has no cooldown that outlasts `now`. */
  ghost predicate Drawable(refs: seq<MemberRef>, cds: Cooldowns, now: int) {
    && refs != [] && (forall i | 0 <= i < |refs| :: refs[i].weight > 0.0)
    && exists i :: 0 <= i < |refs| && (refs[i].id in cds ==> cds[refs[i].id] <= now)
  }

  /** Every entry of the list cools beyond `now`. */
  ghost predicate AllBeyond(refs: seq<MemberRef>, cds: Cooldowns, now: int) {
    forall i | 0 <= i < |refs| :: refs[i].id in cds && cds[refs[i].id] > now
  }

  /** `id` stands in the list, no entry ends its cooldown before it, and none above it as early. */
  ghost predicate UpFirst(refs: seq<MemberRef>, cds: Cooldowns, id: string) {
    exists k ::
      && 0 <= k < |refs| && refs[k].id == id && id in cds
      && forall j | 0 <= j < |refs| && refs[j].id in cds ::
          if j < k then cds[id] < cds[refs[j].id] else cds[id] <= cds[refs[j].id]
  }

  ghost predicate Stands(refs: seq<MemberRef>, id: string) {
    exists i :: 0 <= i < |refs| && refs[i].id == id
  }

  /** A fresh answer: somebody who can be drawn, bound from `now` on; else the first to come up, with no
      row left; else a failure. */
  ghost predicate Fresh(p: Pool, cds: Cooldowns, key: string, now: int, p': Pool, out: Outcome) {
    && p'.refs == p.refs
    && if Drawable(p.refs, cds, now) then
         && !out.failed && Stands(p.refs, out.member) && (out.member in cds ==> cds[out.member] <= now)
         && (out.newlyBound <==> key != "")
         && p'.bindings == (if key == "" then p.bindings else p.bindings[key := Binding(out.member, now)])
       else
         && !out.newlyBound && p'.bindings == p.bindings - {key}
         && (out.failed <==> p.refs == [] || !AllBeyond(p.refs, cds, now))
         && (!out.failed ==> UpFirst(p.refs, cds, out.member))
  }

  /** A row that a lookup may answer from: no more than ttl since it was last used, its member still
      configured and not cooling beyond `now`. */
  ghost predicate Usable(p: Pool, members: seq<MemberRef>, cds: Cooldowns, ttl: int, key: string, now: int) {
    && key != "" && key in p.bindings && now - p.bindings[key].boundAt <= ttl
    && Stands(members, p.bindings[key].member)
    && (p.bindings[key].member in cds ==> cds[p.bindings[key].member] <= now)
  }

  /** What a lookup does: it answers from a usable row and restarts its window; else it answers afresh. */
  ghost predicate Looked(p: Pool, members: seq<MemberRef>, cds: Cooldowns, ttl: int, key: string, now: int,
                         carried: bool, p': Pool, out: Outcome)
  {
    if Usable(p, members, cds, ttl, key, now) then
      && out == Outcome(p.bindings[key].member, false, false, false)
      && p' == p.(bindings := p.bindings[key := Binding(p.bindings[key].member, now)])
    else Fresh(p, cds, key, now, p', out) && out.staleRepaired == carried
  }

  lemma HitLaw(p: Pool, members: seq<MemberRef>, cds: Cooldowns, ttl: int, key: string, now: int, carried: bool,
               u: Rand)
    requires Usable(p, members, cds, ttl, key, now)
    ensures SelectIn(p, members, cds, ttl, key, now, carried, u)
      == (p.(bindings := p.bindings[key := Binding(p.bindings[key].member, now)]),
          Outcome(p.bindings[key].member, false, false, false))
  {
  }

  /** The drawing half of a lookup. */
  lemma FreshInLaw(p: Pool, cds: Cooldowns, key: string, now: int, stale: bool, u: Rand)
    requires !Stands(p.refs, "")
    ensures var (p', out) := FreshIn(p, cds, key, now, stale, u);
      && p'.refs == p.refs && out.staleRepaired == stale
      && if Drawable(p.refs, cds, now) then
           && !out.failed && Stands(p.refs, out.member) && (out.member in cds ==> cds[out.member] <= now)
           && (out.newlyBound <==> key != "")
           && p'.bindings == (if key == "" then p.bindings else p.bindings[key := Binding(out.member, now)])
         else
           && !out.newlyBound && p' == p && (out.failed <==> p.refs == [] || !AllBeyond(p.refs, cds, now))
           && (!out.failed ==> UpFirst(p.refs, cds, out.member))
  {
    DrawLaw(p.refs, cds, now, u);
    FirstUpLaw(p.refs, cds, now);
  }

  /** Without a usable row a selection is a drawing after the row is dropped. */
  lemma MissIsFresh(p: Pool, members: seq<MemberRef>, cds: Cooldowns, ttl: int, key: string, now: int, carried: bool,
                    u: Rand)
    requires PoolInv(p, members) && !Usable(p, members, cds, ttl, key, now)
    ensures var q := if key in p.bindings then p.(bindings := p.bindings - {key}, count := p.count - 1) else p;
      SelectIn(p, members, cds, ttl, key, now, carried, u) == FreshIn(q, cds, key, now, carried, u)
  {
  }

  lemma MissLaw(p: Pool, members: seq<MemberRef>, cds: Cooldowns, ttl: int, key: string, now: int, carried: bool,
                u: Rand)
    requires PoolInv(p, members) && !Stands(p.refs, "") && !Usable(p, members, cds, ttl, key, now)
    ensures var (p', out) := SelectIn(p, members, cds, ttl, key, now, carried, u);
      Fresh(p, cds, key, now, p', out) && out.staleRepaired == carried
  {
    var q := if key in p.bindings then p.(bindings := p.bindings - {key}, count := p.count - 1) else p;
    MissIsFresh(p, members, cds, ttl, key, now, carried, u);
    FreshInLaw(q, cds, key, now, carried, u);
    var m := FreshIn(q, cds, key, now, carried, u).1.member;
    assert q.bindings == p.bindings - {key};
    assert q.bindings[key := Binding(m, now)] == p.bindings[key := Binding(m, now)];
  }

  /** A lookup answers from the row exactly when it is usable; in every other case, idleness beyond ttl among
      them, it answers afresh. */
  lemma LookupLaw(p: Pool, members: seq<MemberRef>, cds: Cooldowns, ttl: int, key: string, now: int, carried: bool,
                  u: Rand)
    requires PoolInv(p, members) && !Stands(p.refs, "")
    ensures var (p', out) := SelectIn(p, members, cds, ttl, key, now, carried, u);
      Looked(p, members, cds, ttl, key, now, carried, p', out)
  {
    if Usable(p, members, cds, ttl, key, now) {
      HitLaw(p, members, cds, ttl, key, now, carried, u);
    } else {
      MissLaw(p, members, cds, ttl, key, now, carried, u);
    }
  }

  /** A pick is somebody who can be drawn, and there is one exactly when somebody can. */
  lemma DrawLaw(refs: seq<MemberRef>, cds: Cooldowns, now: int, u: Rand)
    requires !Stands(refs, "")
    ensures var id := PickHealthy(refs, CoolingIds(cds, now), u);
      && (id != "" <==> Drawable(refs, cds, now))
      && (id != "" ==> Stands(refs, id) && (id in cds ==> cds[id] <= now))
  {
    PickFacts(refs, CoolingIds(cds, now), u);
  }

  lemma FirstUpLaw(refs: seq<MemberRef>, cds: Cooldowns, now: int)
    requires !Stands(refs, "")
    ensures var id := Soonest(refs, cds, now);
      && (id != "" <==> refs != [] && AllBeyond(refs, cds, now))
      && (id != "" ==> UpFirst(refs, cds, id))
  {
    SoonestFacts(refs, cds, now);
    assert AllCooling(refs, cds, now) <==> AllBeyond(refs, cds, now);
    var id := Soonest(refs, cds, now);
    if id != "" {
      var k :| ExpiresFirst(refs, cds, |refs|, k) && refs[k].id == id;
      assert 0 <= k < |refs| && refs[k].id == id;
    }
  }

  /** The share of an entry, of the pick itself: it is picked exactly by the draws of one interval of its
      own weight, out of the total weight of those who are not out. */
  lemma PickShare(refs: seq<MemberRef>, out: set<string>, u: Rand, i: nat)
    requires refs != [] && (forall k | 0 <= k < |refs| :: refs[k].weight > 0.0)
    requires Unambiguous(refs, i) && refs[i].id !in out && refs[i].id != ""
    ensures Sum(refs, out, |refs|) > 0.0
    ensures PickHealthy(refs, out, u) == refs[i].id
      <==> Sum(refs, out, i) <= u(Sum(refs, out, |refs|)) < Sum(refs, out, i) + refs[i].weight
  {
    SumPositive(refs, out, |refs|);
    assert refs[..|refs|] == refs && !AllIn(refs, out);
    DrawShare(refs, out, i, u(Total(refs, out)));
  }

  /** What a failover does after the mark: the conversation's row answers, untouched, exactly when it names
      somebody else who does not cool; otherwise somebody who can be drawn is bound from `now` on, or
      nothing is bound and the first to come up is named, or nobody. */
  ghost predicate Moved(p: Pool, cds: Cooldowns, key: string, x: string, now: int, p': Pool, m: string, mode: Mode) {
    if key != "" && key in p.bindings && p.bindings[key].member != x
       && (p.bindings[key].member in cds ==> cds[p.bindings[key].member] <= now)
    then p' == p && m == p.bindings[key].member && mode == ReselectHealthy
    else if Drawable(p.refs, cds, now) then
      && mode == ReselectHealthy && Stands(p.refs, m) && m != x && (m in cds ==> cds[m] <= now)
      && p'.refs == p.refs && p'.bindings == if key == "" then p.bindings else p.bindings[key := Binding(m, now)]
    else
      && p' == p && (mode == ReselectSoonestExpiry <==> p.refs != [] && AllBeyond(p.refs, cds, now))
      && (if mode == ReselectSoonestExpiry then UpFirst(p.refs, cds, m) else mode == ReselectNone && m == "")
  }

  lemma FailoverLaw(p: Pool, members: seq<MemberRef>, cds: Cooldowns, key: string, x: string, now: int, u: Rand)
    requires PoolInv(p, members) && !Stands(p.refs, "") && x in cds && cds[x] > now
    ensures var (p', m, mode) := ReselectIn(p, members, cds, key, x, now, u); Moved(p, cds, key, x, now, p', m, mode)
  {
    DrawLaw(p.refs, cds, now, u);
    FirstUpLaw(p.refs, cds, now);
  }

  /** A sweep keeps a row exactly while no more than ttl has passed since its last use. */
  lemma SweepLaw(p: Pool, ttl: int, now: int, key: string)
    ensures var q := Without(p, Idle(p.bindings, ttl, now));
      && (key in q.bindings <==> key in p.bindings && now - p.bindings[key].boundAt <= ttl)
      && (key in q.bindings ==> q.bindings[key] == p.bindings[key])
      && q.refs == p.refs && q.count - |q.bindings| == p.count - |p.bindings|
  {
    var gone := Idle(p.bindings, ttl, now);
    assert (p.bindings - gone).Keys == p.bindings.Keys - gone;
  }

  /** A change of the configuration keeps a row exactly while its member is configured. */
  lemma ChangeLaw(p: Pool, side: seq<MemberRef>, refs: seq<MemberRef>, key: string)
    ensures var q := Without(p.(refs := side), Orphans(p.bindings, refs));
      && (key in q.bindings <==> key in p.bindings && Stands(refs, p.bindings[key].member))
      && (key in q.bindings ==> q.bindings[key] == p.bindings[key])
      && q.count - |q.bindings| == p.count - |p.bindings|
  {
    var gone := Orphans(p.bindings, refs);
    assert (p.bindings - gone).Keys == p.bindings.Keys - gone;
  }
}
