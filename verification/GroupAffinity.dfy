/** Affinity of a conversation over whole runs of lock sections, in any order and from any
    number of interleaved calls, and exactly one rebind per failure. */
module GroupAffinity {
  import opened Options
  import opened WeightedPool
  import opened StickyPool
  import opened GroupSections
  import opened GroupSelection

  /** Conversation `key` is held by `member`, refreshed at `at`; `row` is the member's cooldown row. */
  datatype Anchor = Anchor(key: string, member: string, at: int, row: Option<int>)

  ghost predicate Anchored(s: State, a: Anchor) {
    && a.key != "" && a.key in s.def.bindings && s.def.bindings[a.key] == Binding(a.member, a.at)
    && InRefs(s.members, a.member)
    && (a.member in s.cooldowns ==> a.row == Some(s.cooldowns[a.member]))
  }

  ghost predicate Clear(a: Anchor, now: int) {
    a.row.Some? ==> a.row.value <= now
  }

  /** What the environment must grant: the conversation's own sections and the janitor come no
      later than ttl after the last refresh, nobody excludes the member, and no configuration
      drops it. Nothing is asked of other conversations, weights, pool flips or the backup pool. */
  ghost predicate Gentle(sec: Section, a: Anchor, ttl: int) {
    match sec
    case Change(refs) => InRefs(refs, a.member)
    case Sweep(now) => now - a.at <= ttl
    case Read(k, now) => k == a.key ==> now - a.at <= ttl && Clear(a, now)
    case Upgrade(k, hit, now) => k == a.key ==> now - a.at <= ttl && Clear(a, now)
    case Full(k, now, _) => k == a.key ==> now - a.at <= ttl && Clear(a, now)
    case Exclude(k, x, _, now, _) => x != a.member && (k == a.key ==> Clear(a, now))
    case BackupSingle(x, _, _) => x != a.member
    case BackupExclude(_, x, _, _, _) => x != a.member
    case _ => true
  }

  /** A lookup of the conversation restarts its idle window. */
  ghost function Moved(a: Anchor, sec: Section): Anchor {
    if (sec.Full? && sec.key == a.key) || (sec.Upgrade? && sec.key == a.key && sec.hit == a.member)
    then a.(at := sec.now) else a
  }

  /** The conversation is answered with its member: no new binding, no failover. */
  ghost predicate Loyal(sec: Section, r: Reply, a: Anchor) {
    match sec
    case Read(k, _) => k == a.key ==> r == Hit(Some(a.member))
    case Upgrade(k, hit, _) => k == a.key ==> r == Refreshed(hit == a.member)
    case Full(k, _, _) => k == a.key ==> r == Served(Outcome(a.member, false, false, false))
    case Exclude(k, _, _, _, _) => k == a.key ==> r == Reselected(a.member, ReselectHealthy)
    case _ => true
  }

  lemma StepIsLoyal(s: State, ttl: int, sec: Section, a: Anchor)
    requires Anchored(s, a) && Enabled(s, sec) && Gentle(sec, a, ttl)
    ensures Loyal(sec, Do(s, ttl, sec).1, a) && Anchored(Do(s, ttl, sec).0, Moved(a, sec))
  {
    match sec {
      case Change(refs) => assert a.key !in Orphans(s.def.bindings, refs);
      case Sweep(now) => assert a.key !in Idle(s.def.bindings, ttl, now);
      case _ =>
    }
  }

  ghost predicate GentleRun(tr: seq<Section>, a: Anchor, ttl: int)
    decreases |tr|
  {
    tr != [] ==> Legal(tr[0]) && Gentle(tr[0], a, ttl) && GentleRun(tr[1..], Moved(a, tr[0]), ttl)
  }

  ghost predicate LoyalRun(s: State, ttl: int, tr: seq<Section>, a: Anchor)
    decreases |tr|
  {
    && Anchored(s, a)
    && (tr != [] ==> Enabled(s, tr[0]) && Loyal(tr[0], Do(s, ttl, tr[0]).1, a)
                     && LoyalRun(Do(s, ttl, tr[0]).0, ttl, tr[1..], Moved(a, tr[0])))
  }

  /** As long as the environment is gentle, every section of the conversation, in any
      interleaving with everything else, answers with the same member. */
  lemma {:induction false} AffinityHolds(s: State, ttl: int, tr: seq<Section>, a: Anchor)
    requires Anchored(s, a) && GentleRun(tr, a, ttl)
    ensures LoyalRun(s, ttl, tr, a)
    decreases |tr|
  {
    if tr != [] {
      StepIsLoyal(s, ttl, tr[0], a);
      AffinityHolds(Do(s, ttl, tr[0]).0, ttl, tr[1..], Moved(a, tr[0]));
    }
  }

  /** A lookup that returned a member and left a row anchors its conversation to it. */
  lemma SelectionAnchors(s: State, ttl: int, key: string, now: int, u: Rand)
    requires Inv(s) && key != ""
    ensures var (s', r) := Do(s, ttl, Full(key, now, u));
      !r.out.failed && key in s'.def.bindings ==>
        Anchored(s', Anchor(key, r.out.member, now,
                            if r.out.member in s.cooldowns then Some(s.cooldowns[r.out.member]) else None))
  {
    assert !InRefs(s.def.refs, "");
    SelectionIsGood(s.def, s.members, s.cooldowns, ttl, key, now, false, u);
    SelectKeeps(s.def, s.members, s.cooldowns, ttl, key, now, false, u);
  }

  // ---------------------------------------------------------------- one rebind

  ghost function AnchorOf(s: State, key: string): Anchor
    requires key in s.def.bindings
  {
    var b := s.def.bindings[key];
    Anchor(key, b.member, b.boundAt, if b.member in s.cooldowns then Some(s.cooldowns[b.member]) else None)
  }

  lemma ReselectPicks(p: Pool, members: seq<MemberRef>, cds: Cooldowns, key: string, x: string, now: int, u: Rand)
    requires PoolInv(p, members) && Cooling(cds, x, now)
    requires ReselectIn(p, members, cds, key, x, now, u).2 == ReselectHealthy
    ensures var r := ReselectIn(p, members, cds, key, x, now, u);
      && r.1 != x && !Cooling(cds, r.1, now) && InRefs(members, r.1)
      && (key != "" ==> key in r.0.bindings && r.0.bindings[key].member == r.1)
      && (key != "" && (key !in p.bindings || p.bindings[key].member == x) ==> r.0.bindings[key] == Binding(r.1, now))
      && r.0.bindings - {key} == p.bindings - {key}
  {
    var pick := PickHealthy(p.refs, CoolingIds(cds, now), u);
    PickFacts(p.refs, CoolingIds(cds, now), u);
    if pick != "" {
      PoolIdsAreMembers(p, members, pick);
    }
  }

  /** The three outcomes of a failover in either pool: healthy exactly when the conversation had moved
      to a healthy member or the pool has one; otherwise no row changes, and it is the first to
      expire exactly when the whole non-empty pool cools. */
  lemma ReselectModes(p: Pool, members: seq<MemberRef>, cds: Cooldowns, key: string, x: string, now: int, u: Rand)
    requires PoolInv(p, members) && !InRefs(p.refs, "") && Cooling(cds, x, now)
    ensures var r := ReselectIn(p, members, cds, key, x, now, u);
      var moved := key != "" && key in p.bindings && p.bindings[key].member != x
          && !Cooling(cds, p.bindings[key].member, now);
      && (r.2 == ReselectHealthy <==> moved || (Selectable(p.refs) && !AllCooling(p.refs, cds, now)))
      && (r.2 != ReselectHealthy ==>
          r.0 == p && (r.2 == ReselectSoonestExpiry <==> p.refs != [] && AllCooling(p.refs, cds, now)))
      && (r.2 == ReselectSoonestExpiry ==> exists k :: ExpiresFirst(p.refs, cds, |p.refs|, k) && p.refs[k].id == r.1)
      && (r.2 == ReselectNone ==> r.1 == "")
  {
    var out := CoolingIds(cds, now);
    PickFacts(p.refs, out, u);
    SoonestFacts(p.refs, cds, now);
    assert AllCooling(p.refs, cds, now) <==> AllIn(p.refs, out);
  }

  /** A healthy reselect never hands back the excluded member nor a cooling one; the conversation
      is bound to what it returned, afresh unless it had already moved away, and no other
      conversation and no backup row is touched. */
  lemma ExclusionRebinds(s: State, ttl: int, key: string, x: string, cd: int, now: int, u: Rand, s': State, r: Reply)
    requires Inv(s) && key != "" && cd > 0 && (s', r) == Do(s, ttl, Exclude(key, x, cd, now, u))
    requires r.mode == ReselectHealthy
    ensures
      && r.member != x && !Cooling(s'.cooldowns, r.member, now) && InRefs(s.members, r.member)
      && key in s'.def.bindings && AnchorOf(s', key).member == r.member && Anchored(s', AnchorOf(s', key))
      && (key !in s.def.bindings || s.def.bindings[key].member == x ==> s'.def.bindings[key] == Binding(r.member, now))
      && s'.def.bindings - {key} == s.def.bindings - {key} && s'.bak == s.bak
      && Cooling(s'.cooldowns, x, now)
  {
    ReselectPicks(s.def, s.members, s.cooldowns[x := now + cd], key, x, now, u);
  }

  ghost predicate SameFailure(sec: Section, key: string, x: string, a: Anchor) {
    sec.Exclude? && sec.key == key && sec.excluded == x && Legal(sec) && Clear(a, sec.now)
  }

  ghost function RunState(s: State, ttl: int, tr: seq<Section>): State
    requires forall i | 0 <= i < |tr| :: tr[i].Exclude? && Legal(tr[i])
    decreases |tr|
  {
    if tr == [] then s else RunState(Do(s, ttl, tr[0]).0, ttl, tr[1..])
  }

  lemma {:induction false} SameFailuresAreGentle(tr: seq<Section>, ttl: int, key: string, x: string, a: Anchor)
    requires a.key == key && a.member != x && forall i | 0 <= i < |tr| :: SameFailure(tr[i], key, x, a)
    ensures GentleRun(tr, a, ttl)
    decreases |tr|
  {
    if tr != [] {
      SameFailuresAreGentle(tr[1..], ttl, key, x, a);
    }
  }

  lemma {:induction false} LoyalRunEnds(s: State, ttl: int, tr: seq<Section>, a: Anchor)
    requires LoyalRun(s, ttl, tr, a) && forall i | 0 <= i < |tr| :: tr[i].Exclude? && Legal(tr[i])
    ensures Anchored(RunState(s, ttl, tr), a)
    decreases |tr|
  {
    if tr != [] {
      LoyalRunEnds(Do(s, ttl, tr[0]).0, ttl, tr[1..], a);
    }
  }

  /** Any number of same-conversation failures of the same member cause exactly one rebind: the
      first binds some b, every later one answers b and leaves the very same row, while b does
      not cool. */
  lemma OneRebindPerFailure(s: State, ttl: int, key: string, x: string, cd: int, now: int, u: Rand, tr: seq<Section>)
    requires Inv(s) && key != "" && cd > 0 && Do(s, ttl, Exclude(key, x, cd, now, u)).1.mode == ReselectHealthy
    requires var s' := Do(s, ttl, Exclude(key, x, cd, now, u)).0;
      key in s'.def.bindings && forall i | 0 <= i < |tr| :: SameFailure(tr[i], key, x, AnchorOf(s', key))
    ensures var s' := Do(s, ttl, Exclude(key, x, cd, now, u)).0;
      LoyalRun(s', ttl, tr, AnchorOf(s', key)) && key in RunState(s', ttl, tr).def.bindings
      && RunState(s', ttl, tr).def.bindings[key] == s'.def.bindings[key]
  {
    var (s', r) := Do(s, ttl, Exclude(key, x, cd, now, u));
    ExclusionRebinds(s, ttl, key, x, cd, now, u, s', r);
    var a := AnchorOf(s', key);
    SameFailuresAreGentle(tr, ttl, key, x, a);
    AffinityHolds(s', ttl, tr, a);
    LoyalRunEnds(s', ttl, tr, a);
  }
}
