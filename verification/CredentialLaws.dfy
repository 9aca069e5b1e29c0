/** What the sections of the credential engine do with rows, cooldown rows, times and stats, told in the
    numbers themselves. */
module CredentialLaws {
  import opened Options
  import opened WeightedPool
  import opened StickyPool
  import opened PoolLaws
  import E = CredentialEngine
  import G = GroupLaws

  lemma NamedPool(m: E.Model)
    requires E.Inv(m)
    ensures !Stands(m.pool.refs, "")
  {
    assert !InRefs(m.pool.refs, "");
  }

  /** A selection answers from a usable row and counts a hit; else it answers afresh and counts a miss, unless
      it fails. */
  lemma SelectLaw(m: E.Model, ttl: int, key: string, now: int, u: Rand)
    requires E.Inv(m)
    ensures var (m', out) := E.Select(m, ttl, key, now, u);
      var st := m.stats;
      && Looked(m.pool, m.pool.refs, m.cooldowns, ttl, key, now, false, m'.pool, out)
      && m'.cooldowns == m.cooldowns
      && m'.stats == if Usable(m.pool, m.pool.refs, m.cooldowns, ttl, key, now) then st.(hits := st.hits + 1)
         else if out.failed then st else st.(misses := st.misses + 1)
  {
    NamedPool(m);
    LookupLaw(m.pool, m.pool.refs, m.cooldowns, ttl, key, now, false, u);
  }

  /** The optimistic read hits exactly a usable row; the re-check refreshes and counts exactly a row that still
      names the hit, has not idled beyond ttl and does not cool. */
  lemma ReadLaw(m: E.Model, ttl: int, key: string, hit: string, now: int)
    ensures E.Do(m, ttl, E.Read(key, now)) == (m, E.Hit(
      if Usable(m.pool, m.pool.refs, m.cooldowns, ttl, key, now) then Some(m.pool.bindings[key].member) else None))
    ensures var b, st := m.pool.bindings, m.stats;
      E.Do(m, ttl, E.Upgrade(key, hit, now))
      == if key in b && b[key].member == hit && now - b[key].boundAt <= ttl
            && (hit in m.cooldowns ==> m.cooldowns[hit] <= now)
         then (m.(pool := m.pool.(bindings := b[key := Binding(hit, now)]), stats := st.(hits := st.hits + 1)),
               E.Refreshed(true))
         else (m, E.Refreshed(false))
  {
  }

  /** A failure marks the excluded credential, and it alone, until exactly now + cooldown, moves the
      conversation, and counts a failover exactly when it drew somebody. */
  lemma FailureLaw(m: E.Model, key: string, x: string, cd: int, now: int, u: Rand)
    requires E.Inv(m) && cd > 0
    ensures var (m', c, mode) := E.Reselect(m, key, x, cd, now, u);
      var st, b, cds := m.stats, m.pool.bindings, m.cooldowns[x := now + cd];
      && m'.cooldowns == cds && Moved(m.pool, cds, key, x, now, m'.pool, c, mode)
      && m'.stats == if mode == ReselectHealthy
            && !(key != "" && key in b && b[key].member != x && (b[key].member in cds ==> cds[b[key].member] <= now))
         then st.(failovers := st.failovers + 1) else st
  {
    var cds := m.cooldowns[x := now + cd];
    NamedPool(m);
    E.ReboundIsReselect(m.pool, cds, key, x, now, u);
    FailoverLaw(m.pool, m.pool.refs, cds, key, x, now, u);
  }

  /** A deletion takes every row that names the credential and its cooldown row, and nothing else; the gauge
      falls by the number of those rows. */
  lemma DeletionLaw(m: E.Model, ttl: int, id: string)
    requires E.Inv(m)
    ensures var m' := E.Do(m, ttl, E.Delete(id)).0;
      && (forall k :: k in m'.pool.bindings <==> k in m.pool.bindings && m.pool.bindings[k].member != id)
      && (forall k | k in m'.pool.bindings :: m'.pool.bindings[k] == m.pool.bindings[k])
      && (forall c :: c in m'.cooldowns <==> c in m.cooldowns && c != id)
      && (forall c | c in m'.cooldowns :: m'.cooldowns[c] == m.cooldowns[c])
      && m'.pool.refs == m.pool.refs && m'.stats == m.stats
      && m'.pool.count == m.pool.count - |set k | k in m.pool.bindings && m.pool.bindings[k].member == id|
      && m'.pool.count == |m'.pool.bindings|
  {
    E.SectionKeeps(m, ttl, E.Delete(id));
  }

  /** After a deletion a lookup does not answer from a row of the deleted credential. */
  lemma DeletedIsNoHit(m: E.Model, ttl: int, id: string, key: string, now: int, u: Rand)
    requires E.Inv(m) && key in m.pool.bindings && m.pool.bindings[key].member == id
    ensures var m1 := E.Do(m, ttl, E.Delete(id)).0;
      var (m2, out) := E.Select(m1, ttl, key, now, u);
      Fresh(m1.pool, m1.cooldowns, key, now, m2.pool, out) && m2.stats.hits == m.stats.hits
  {
    E.SectionKeeps(m, ttl, E.Delete(id));
    DeletionLaw(m, ttl, id);
    SelectLaw(E.Do(m, ttl, E.Delete(id)).0, ttl, key, now, u);
  }

  lemma SweptPool(p: Pool, ttl: int, now: int)
    ensures G.Filtered(p, Without(p, Idle(p.bindings, ttl, now)), (b: Binding) => now - b.boundAt <= ttl)
  {
    var q := Without(p, Idle(p.bindings, ttl, now));
    forall k ensures k in q.bindings <==> k in p.bindings && now - p.bindings[k].boundAt <= ttl {
      SweepLaw(p, ttl, now, k);
    }
    SweepLaw(p, ttl, now, "");
  }

  lemma ChangedPool(p: Pool, refs: seq<MemberRef>)
    ensures G.Filtered(p, Without(p.(refs := refs), Orphans(p.bindings, refs)), (b: Binding) => Stands(refs, b.member))
  {
    var q := Without(p.(refs := refs), Orphans(p.bindings, refs));
    forall k ensures k in q.bindings <==> k in p.bindings && Stands(refs, p.bindings[k].member) {
      ChangeLaw(p, refs, refs, k);
    }
    ChangeLaw(p, refs, refs, "");
  }

  /** A sweep keeps exactly the rows used no more than ttl ago and the cooldown rows that end later. */
  lemma JanitorLaw(m: E.Model, ttl: int, now: int)
    ensures var m' := E.Do(m, ttl, E.Sweep(now)).0;
      && G.Filtered(m.pool, m'.pool, (b: Binding) => now - b.boundAt <= ttl) && m'.pool.refs == m.pool.refs
      && (forall id :: id in m'.cooldowns <==> id in m.cooldowns && m.cooldowns[id] > now)
      && (forall id | id in m'.cooldowns :: m'.cooldowns[id] == m.cooldowns[id]) && m'.stats == m.stats
  {
    SweptPool(m.pool, ttl, now);
  }

  /** A change of the configuration keeps exactly the rows of configured credentials, every cooldown row and
      the stats. */
  lemma ConfigurationLaw(m: E.Model, ttl: int, refs: seq<MemberRef>)
    ensures var m' := E.Do(m, ttl, E.Change(refs)).0;
      && G.Filtered(m.pool, m'.pool, (b: Binding) => Stands(refs, b.member)) && m'.pool.refs == refs
      && m'.cooldowns == m.cooldowns && m'.stats == m.stats
  {
    ChangedPool(m.pool, refs);
  }

  // --------------------------------------------------------------- uninterrupted lookups

  /** The next `n` steps of a lookup, nothing in between. */
  ghost function Alone(w: E.World, ttl: int, i: nat, u: Rand, n: nat): E.World
    decreases n
  {
    if n == 0 || !E.Fits(w, E.Advance(i, u)) then w else Alone(E.Step(w, ttl, E.Advance(i, u)), ttl, i, u, n - 1)
  }

  ghost function Answered(w: E.World, i: nat, m: E.Model, out: Outcome): E.World
    requires i in w.lookups
  {
    E.World(m, w.lookups[i := w.lookups[i].(phase := E.Finished(if out.failed then None else Some(out.member)))])
  }

  lemma SelectingIsSelect(w: E.World, ttl: int, i: nat, u: Rand, n: nat)
    requires n > 0 && i in w.lookups && w.lookups[i].phase.Selecting?
    ensures var (m, out) := E.Select(w.model, ttl, w.lookups[i].key, w.lookups[i].now, u);
      Alone(w, ttl, i, u, n) == Answered(w, i, m, out)
  {
    var w1 := E.Step(w, ttl, E.Advance(i, u));
    assert Alone(w1, ttl, i, u, n - 1) == w1;
  }

  /** A lookup whose sections run one after the other is the selection: optimistic read and re-check change
      nothing about answer, rows or stats. */
  lemma LookupIsSelect(w: E.World, ttl: int, i: nat, u: Rand)
    requires i in w.lookups && w.lookups[i].key != "" && w.lookups[i].phase.Reading?
    ensures var (m, out) := E.Select(w.model, ttl, w.lookups[i].key, w.lookups[i].now, u);
      Alone(w, ttl, i, u, 2) == Answered(w, i, m, out)
  {
    var l := w.lookups[i];
    var w1 := E.Step(w, ttl, E.Advance(i, u));
    assert w1.model == w.model;
    assert Alone(w, ttl, i, u, 2) == Alone(w1, ttl, i, u, 1);
    if E.HasRow(w.model, ttl, l.key, l.now) {
      HitEnds(w, w1, ttl, i, u);
    } else {
      assert w1.lookups[i] == l.(phase := E.Selecting);
      SelectingIsSelect(w1, ttl, i, u, 1);
      var (m, out) := E.Select(w.model, ttl, l.key, l.now, u);
      assert Answered(w1, i, m, out) == Answered(w, i, m, out);
    }
  }

  lemma HitEnds(w: E.World, w1: E.World, ttl: int, i: nat, u: Rand)
    requires i in w.lookups && E.HasRow(w.model, ttl, w.lookups[i].key, w.lookups[i].now)
    requires var l := w.lookups[i];
      w1 == w.(lookups := w.lookups[i := l.(phase := E.Upgrading(w.model.pool.bindings[l.key].member))])
    ensures var (m, out) := E.Select(w.model, ttl, w.lookups[i].key, w.lookups[i].now, u);
      Alone(w1, ttl, i, u, 1) == Answered(w, i, m, out)
  {
    var w2 := E.Step(w1, ttl, E.Advance(i, u));
    assert Alone(w1, ttl, i, u, 1) == Alone(w2, ttl, i, u, 0) == w2;
    var (m, out) := E.Select(w.model, ttl, w.lookups[i].key, w.lookups[i].now, u);
    assert w2.model == m;
    assert w2.lookups == Answered(w, i, m, out).lookups;
  }
}
