/** The per-model state of the credential engine as the source keeps it (pkg/credentiallb/binding.go
    and engine.go): fields updated in place under the per-model lock, integer weights, an integer
    draw, and the stats counters. Every method is proved to do what CredentialEngine says. */
module CredentialStateObject {
  import opened Options
  import opened WeightedPool
  import opened StickyPool
  import opened CredentialEngine
  import G = GroupStateObject
  import C = CredentialSelector

  /** rng.Intn(total): the integer draw below a point of [0, total). */
  function IntDraw(u: Rand, total: int): (r: int)
    requires total > 0
    ensures 0 <= r < total
  {
    u(total as real).Floor
  }

  /** Integer interval ends: the integer draw and the real draw it came from select the same entry. */
  lemma IntegerPick(refs: seq<C.CredentialRef>, out: set<string>, u: Rand)
    requires C.Selectable(refs) && C.Sum(refs, out, |refs|) > 0
    ensures PickHealthy(C.Embed(refs), out, u) == refs[C.Draw(refs, out, IntDraw(u, C.Sum(refs, out, |refs|)))].id
  {
    var e, total := C.Embed(refs), C.Sum(refs, out, |refs|);
    var x := u(total as real);
    C.EmbedSum(refs, out, |refs|);
    assert Total(e, out) == total as real;
    SumPositive(e, out, |e|);
    assert e[..|e|] == e;
    var i := C.Draw(refs, out, IntDraw(u, total));
    C.EmbedSum(refs, out, i);
    C.EmbedSum(refs, out, i + 1);
    OwnerUnique(e, out, i, Draw(e, out, x), x);
  }

  lemma EmbedSelectable(refs: seq<C.CredentialRef>)
    ensures C.Selectable(refs) <==> Selectable(C.Embed(refs))
  {
    var e := C.Embed(refs);
    assert forall i | 0 <= i < |refs| :: refs[i].weight > 0 <==> e[i].weight > 0.0;
  }

  lemma NoHealthyWeight(refs: seq<C.CredentialRef>, out: set<string>, u: Rand)
    requires C.Selectable(refs) && C.Sum(refs, out, |refs|) <= 0
    ensures PickHealthy(C.Embed(refs), out, u) == ""
  {
    var e := C.Embed(refs);
    C.EmbedSum(refs, out, |refs|);
    SumPositive(e, out, |e|);
    assert e[..|e|] == e;
  }

  /** pickHealthyLocked in integers: prefix sums and binary search without cooldown rows, the renormalised walk
      with them; either way the pick of the shared pool. */
  method PickCredential(sel: Option<C.Selector>, refs: seq<C.CredentialRef>, cds: Cooldowns, now: int, u: Rand)
    returns (id: string)
    requires sel.Some? <==> C.Selectable(refs)
    requires sel.Some? ==> C.SelectorFor(sel.value, refs)
    ensures id == PickHealthy(C.Embed(refs), CoolingIds(cds, now), u)
  {
    ghost var out := CoolingIds(cds, now);
    if sel.None? {
      EmbedSelectable(refs);
      return "";
    }
    if |cds| == 0 {
      assert out == {};
      C.SumMonotone(refs, {}, 1, |refs|);
      IntegerPick(refs, {}, u);
      id := C.Pick(sel.value, IntDraw(u, sel.value.total), refs);
      return;
    }
    id := HealthyWalk(refs, cds, now, u);
  }

  method HealthyWalk(refs: seq<C.CredentialRef>, cds: Cooldowns, now: int, u: Rand) returns (id: string)
    requires C.Selectable(refs)
    ensures id == PickHealthy(C.Embed(refs), CoolingIds(cds, now), u)
  {
    ghost var out := CoolingIds(cds, now);
    var total := 0;
    for i := 0 to |refs|
      invariant total == C.Sum(refs, out, i)
    {
      if !Cooling(cds, refs[i].id, now) {
        total := total + refs[i].weight;
      }
    }
    C.SumMonotone(refs, out, 0, |refs|);
    if total == 0 {
      NoHealthyWeight(refs, out, u);
      return "";
    }
    IntegerPick(refs, out, u);
    id := C.Walk(refs, cds, now, IntDraw(u, total));
  }

  /** A fresh selection. */
  method FreshCredential(sel: Option<C.Selector>, refs: seq<C.CredentialRef>, rows: map<string, Binding>, count: int,
                         cds: Cooldowns, key: string, now: int, u: Rand)
    returns (rows': map<string, Binding>, count': int, out: Outcome)
    requires sel.Some? <==> C.Selectable(refs)
    requires sel.Some? ==> C.SelectorFor(sel.value, refs)
    requires !InRefs(C.Embed(refs), "") && (key in rows ==> key == "")
    ensures (Pool(C.Embed(refs), rows', count'), out)
        == FreshIn(Pool(C.Embed(refs), rows, count), cds, key, now, false, u)
  {
    rows', count' := rows, count;
    var pick := PickCredential(sel, refs, cds, now, u);
    if pick == "" {
      var soonest, all := SoonestLocked(C.Embed(refs), cds, now);
      out := Outcome(soonest, false, false, !all || soonest == "");
    } else if key == "" {
      out := Outcome(pick, false, false, false);
    } else {
      rows', count' := rows[key := Binding(pick, now)], count + 1;
      out := Outcome(pick, true, false, false);
    }
  }

  /** Delete the rows of one credential, with the mirror. */
  method DropRowsOf(rows: map<string, Binding>, count: int, id: string)
    returns (rows': map<string, Binding>, count': int)
    ensures var gone := set k | k in rows && rows[k].member == id; rows' == rows - gone && count' == count - |gone|
  {
    rows', count' := rows, count;
    var left := rows.Keys;
    ghost var gone: set<string> := {};
    while left != {}
      invariant left <= rows.Keys && gone <= rows.Keys && gone !! left
      invariant rows' == rows - gone && count' == count - |gone|
      invariant forall k | k in rows && k !in left :: k in gone <==> rows[k].member == id
      decreases |left|
    {
      var k :| k in left;
      left := left - {k};
      if rows[k].member == id {
        rows', count' := rows' - {k}, count' - 1;
        gone := gone + {k};
      }
    }
    assert gone == set k | k in rows && rows[k].member == id;
  }

  /** A live row is refreshed and counted. */
  lemma SelectHits(m: Model, ttl: int, key: string, now: int, u: Rand)
    requires HasRow(m, ttl, key, now)
    ensures var b := m.pool.bindings[key];
      Select(m, ttl, key, now, u)
      == (m.(pool := m.pool.(bindings := m.pool.bindings[key := b.(boundAt := now)]),
          stats := m.stats.(hits := m.stats.hits + 1)),
          Outcome(b.member, false, false, false))
  {
  }

  /** Without a live row a selection is a fresh one after the dead row is dropped. */
  lemma SelectMisses(m: Model, ttl: int, key: string, now: int, u: Rand)
    requires !HasRow(m, ttl, key, now)
    ensures var (p, out) := FreshIn(if key == "" then m.pool else Drop(m.pool, key), m.cooldowns, key, now, false, u);
      Select(m, ttl, key, now, u)
      == (m.(pool := p, stats := m.stats.(misses := m.stats.misses + if out.failed then 0 else 1)), out)
  {
  }

  /** The body of the full path: a live row is refreshed, a dead one dropped before a fresh selection.
      `m` is the model that the arguments are the parts of. */
  method SelectCredential(sel: Option<C.Selector>, refs: seq<C.CredentialRef>, rows: map<string, Binding>, count: int,
                          cds: Cooldowns, key: string, ttl: int, now: int, u: Rand, ghost m: Model)
    returns (rows': map<string, Binding>, count': int, hit: bool, out: Outcome)
    requires sel.Some? <==> C.Selectable(refs)
    requires sel.Some? ==> C.SelectorFor(sel.value, refs)
    requires !InRefs(C.Embed(refs), "") && m.pool == Pool(C.Embed(refs), rows, count) && m.cooldowns == cds
    ensures hit <==> HasRow(m, ttl, key, now)
    ensures hit ==> !out.failed
    ensures Select(m, ttl, key, now, u).0.pool == Pool(C.Embed(refs), rows', count')
    ensures Select(m, ttl, key, now, u).1 == out
  {
    rows', count', hit := rows, count, false;
    if key != "" && key in rows {
      var found := G.MemberInRefs(C.Embed(refs), rows[key].member);
      hit := !Expired(rows[key], ttl, now) && found && !Cooling(cds, rows[key].member, now);
      if hit {
        SelectHits(m, ttl, key, now, u);
        rows' := rows[key := rows[key].(boundAt := now)];
        out := Outcome(rows[key].member, false, false, false);
        return;
      }
      rows', count' := rows - {key}, count - 1;
    }
    SelectMisses(m, ttl, key, now, u);
    rows', count', out := FreshCredential(sel, refs, rows', count', cds, key, now, u);
  }

  /** The body of a failover after the mark; `moved` tells that the conversation had moved already. */
  method RebindCredential(sel: Option<C.Selector>, refs: seq<C.CredentialRef>, rows: map<string, Binding>, count: int,
                          cds: Cooldowns, key: string, excluded: string, now: int, u: Rand)
    returns (rows': map<string, Binding>, count': int, id: string, mode: Mode, moved: bool)
    requires sel.Some? <==> C.Selectable(refs)
    requires sel.Some? ==> C.SelectorFor(sel.value, refs)
    requires !InRefs(C.Embed(refs), "")
    ensures (Pool(C.Embed(refs), rows', count'), id, mode, moved)
      == Rebound(Pool(C.Embed(refs), rows, count), cds, key, excluded, now, u)
  {
    rows', count', moved := rows, count, false;
    if key != "" && key in rows && rows[key].member != excluded && !Cooling(cds, rows[key].member, now) {
      id, mode, moved := rows[key].member, ReselectHealthy, true;
      return;
    }
    var pick := PickCredential(sel, refs, cds, now, u);
    if pick == "" || pick == excluded {
      var soonest, all := SoonestLocked(C.Embed(refs), cds, now);
      id, mode := soonest, if all then ReselectSoonestExpiry else ReselectNone;
      return;
    }
    id, mode := pick, ReselectHealthy;
    if key != "" {
      count' := count + if key in rows then 0 else 1;
      rows' := rows[key := Binding(pick, now)];
    }
  }

  class ModelState {
    var credentials: seq<C.CredentialRef>
    var selector: Option<C.Selector>
    var bindings: map<string, Binding>
    var cooldowns: Cooldowns
    var bindingsCount: int
    var hitsTotal: nat
    var missesTotal: nat
    var failoversTotal: nat

    ghost predicate Valid()
      reads this
    {
      && (selector.Some? <==> C.Selectable(credentials))
      && (selector.Some? ==> C.SelectorFor(selector.value, credentials))
      && !InRefs(C.Embed(credentials), "")
    }

    ghost function View(): Model
      reads this
    {
      Model(Pool(C.Embed(credentials), bindings, bindingsCount), cooldowns,
          Stats(hitsTotal, missesTotal, failoversTotal))
    }

    constructor ()
      ensures Valid() && View() == Model(Pool([], map[], 0), map[], Stats(0, 0, 0))
    {
      credentials, selector := [], None;
      bindings, cooldowns, bindingsCount := map[], map[], 0;
      hitsTotal, missesTotal, failoversTotal := 0, 0, 0;
    }

    /** OnModelChanged with a non-empty list: rows of dropped credentials go, everything else stays. */
    method OnModelChanged(refs: seq<C.CredentialRef>, ttl: int)
      requires refs != [] && !InRefs(C.Embed(refs), "")
      modifies this`credentials, this`selector, this`bindings, this`bindingsCount
      ensures Valid() && View() == Do(old(View()), ttl, Change(C.Embed(refs))).0
    {
      bindings, bindingsCount := G.DropOrphans(bindings, bindingsCount, C.Embed(refs));
      credentials := refs;
      selector := C.NewSelector(refs);
    }

    /** OnCredentialDeleted for this model. */
    method OnCredentialDeleted(id: string, ttl: int)
      requires Valid()
      modifies this`bindings, this`bindingsCount, this`cooldowns
      ensures Valid() && View() == Do(old(View()), ttl, Delete(id)).0
    {
      bindings, bindingsCount := DropRowsOf(bindings, bindingsCount, id);
      cooldowns := cooldowns - {id};
    }

    /** One janitor pass over this model. */
    method SweepOnce(ttl: int, now: int)
      requires Valid()
      modifies this`bindings, this`bindingsCount, this`cooldowns
      ensures Valid() && View() == Do(old(View()), ttl, Sweep(now)).0
    {
      cooldowns := G.SweepCooldowns(cooldowns, now);
      bindings, bindingsCount := G.SweepRows(bindings, bindingsCount, ttl, now);
    }

    /** The write-locked full path. */
    method FullPath(key: string, ttl: int, now: int, u: Rand) returns (out: Outcome)
      requires Valid()
      modifies this`bindings, this`bindingsCount, this`hitsTotal, this`missesTotal
      ensures Valid() && (View(), out) == Select(old(View()), ttl, key, now, u)
    {
      var hit;
      bindings, bindingsCount, hit, out :=
        SelectCredential(selector, credentials, bindings, bindingsCount, cooldowns, key, ttl, now, u, View());
      if hit {
        hitsTotal := hitsTotal + 1;
      } else if !out.failed {
        missesTotal := missesTotal + 1;
      }
    }

    /** GetOrSelect, uninterrupted. One credential: no row, no tick, no look at its cooldown. More:
        the optimistic read with its write-locked re-check computes what the full path computes. */
    method GetOrSelect(key: string, ttl: int, now: int, u: Rand) returns (out: Outcome)
      requires Valid() && Inv(View())
      modifies this`bindings, this`bindingsCount, this`hitsTotal, this`missesTotal
      ensures Valid()
      ensures |credentials| >= 2 ==> (View(), out) == Select(old(View()), ttl, key, now, u)
      ensures |credentials| == 1 ==> View() == old(View()) && out == Outcome(credentials[0].id, false, false, false)
      ensures |credentials| == 0 ==> View() == old(View()) && out.failed
    {
      if |credentials| == 0 {
        return Outcome("", false, false, true);
      }
      if |credentials| == 1 {
        return Outcome(credentials[0].id, false, false, false);
      }
      if key != "" && key in bindings {
        var b := bindings[key];
        var found := G.MemberInRefs(C.Embed(credentials), b.member);
        if !Expired(b, ttl, now) && found && !Cooling(cooldowns, b.member, now) {
          bindings, hitsTotal := bindings[key := b.(boundAt := now)], hitsTotal + 1;
          return Outcome(b.member, false, false, false);
        }
      }
      out := FullPath(key, ttl, now, u);
    }

    /** excludeAndReselectWithCooldown: nothing happens with fewer than two credentials. */
    method ExcludeAndReselect(key: string, excluded: string, cooldown: int, now: int, u: Rand)
      returns (id: string, mode: Mode)
      requires Valid() && cooldown > 0
      modifies this`bindings, this`bindingsCount, this`cooldowns, this`failoversTotal
      ensures Valid()
      ensures |credentials| >= 2 ==> (View(), id, mode) == Reselect(old(View()), key, excluded, cooldown, now, u)
      ensures |credentials| < 2 ==> View() == old(View()) && id == "" && mode == ReselectNone
    {
      if |credentials| <= 1 {
        return "", ReselectNone;
      }
      var cds := cooldowns[excluded := now + cooldown];
      var rows, count, moved;
      rows, count, id, mode, moved :=
        RebindCredential(selector, credentials, bindings, bindingsCount, cds, key, excluded, now, u);
      var ticks := failoversTotal + if mode == ReselectHealthy && !moved then 1 else 0;
      cooldowns, bindings, bindingsCount, failoversTotal := cds, rows, count, ticks;
    }
  }
}
