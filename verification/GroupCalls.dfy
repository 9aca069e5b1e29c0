/** A call whose lock sections run one after the other does what the whole operation does: the link
    between the interleaved calls and the operations of GroupJanitor. */
module GroupCalls {
  import opened Options
  import opened WeightedPool
  import opened StickyPool
  import opened GroupSections
  import opened GroupInterleaving
  import J = GroupJanitor
  import O = GroupStateObject

  /** How many sections a call can have before it, at most. */
  ghost function Rank(ph: Phase): nat {
    match ph
    case Counting => 5
    case Single => 4
    case Reading => 3
    case Upgrading(_) => 2
    case Selecting(_) => 1
    case Snapping => 3
    case FastBackup(_) => 2
    case MarkingSingle => 2
    case Reselecting => 1
  }

  /** The next section of a call, the state after it, and the phase it leads to. */
  ghost function SectionNow(cfg: Config, s: State, c: Call, ph: Phase, u: Rand): (Section, State, Option<Phase>)
    requires cfg.defaultCooldown > 0 && PhaseFits(c.req, ph) && s.members != []
  {
    var sec := SectionOf(cfg, c, ph, u, c.now);
    var (s', r) := Do(s, cfg.ttl, sec);
    (sec, s', Next(c.req, r))
  }

  lemma NextFits(cfg: Config, s: State, c: Call, ph: Phase, u: Rand)
    requires cfg.defaultCooldown > 0 && PhaseFits(c.req, ph) && s.members != []
    ensures var next := SectionNow(cfg, s, c, ph, u).2; next.Some? ==> PhaseFits(c.req, next.value)
  {
    PhaseFollows(cfg, c, ph, s, u, c.now);
  }

  lemma NextRank(cfg: Config, s: State, c: Call, ph: Phase, u: Rand)
    requires cfg.defaultCooldown > 0 && PhaseFits(c.req, ph) && s.members != []
    ensures var next := SectionNow(cfg, s, c, ph, u).2; next.Some? ==> Rank(next.value) < Rank(ph)
    ensures Rank(ph) == 1 ==> SectionNow(cfg, s, c, ph, u).2.None?
  {
    var r := Do(s, cfg.ttl, SectionOf(cfg, c, ph, u, c.now)).1;
    match ph {
      case Counting => assert r.Size?;
      case Single => assert r.Head?;
      case Reading => assert r.Hit?;
      case Upgrading(_) => assert r.Refreshed?;
      case Selecting(_) => assert r.Served?;
      case Snapping => assert r.Snapshot?;
      case FastBackup(_) => assert r.Served? || r.Retry?;
      case MarkingSingle => assert r.Marked?;
      case Reselecting => assert r.Reselected?;
    }
  }

  lemma RankFalls(cfg: Config, s: State, c: Call, ph: Phase, u: Rand)
    requires cfg.defaultCooldown > 0 && PhaseFits(c.req, ph) && Inv(s)
    ensures var (_, s', next) := SectionNow(cfg, s, c, ph, u);
      Inv(s') && (next.Some? ==> PhaseFits(c.req, next.value) && Rank(next.value) < Rank(ph))
    ensures Rank(ph) == 1 ==> SectionNow(cfg, s, c, ph, u).2.None?
  {
    SectionKeeps(s, cfg.ttl, SectionOf(cfg, c, ph, u, c.now));
    NextFits(cfg, s, c, ph, u);
    NextRank(cfg, s, c, ph, u);
  }

  /** What a call is when nothing comes between its sections: its last section, the state that ran on, and
      the state it leaves. */
  ghost function Through(cfg: Config, s: State, c: Call, ph: Phase, u: Rand): (Section, State, State)
    requires cfg.defaultCooldown > 0 && PhaseFits(c.req, ph) && Inv(s)
    decreases Rank(ph)
  {
    RankFalls(cfg, s, c, ph, u);
    var (sec, s', next) := SectionNow(cfg, s, c, ph, u);
    if next.None? then (sec, s, s') else Through(cfg, s', c, next.value, u)
  }

  ghost predicate Ends(cfg: Config, t: (Section, State, State), s': State, answer: string) {
    Enabled(t.1, t.0) && t.2 == s' && Answer(t.0, Do(t.1, cfg.ttl, t.0).1) == answer
  }

  /** A call whose next section is its last. */
  lemma EndsNow(cfg: Config, s: State, c: Call, ph: Phase, u: Rand, sec: Section, s': State, r: Reply)
    requires cfg.defaultCooldown > 0 && PhaseFits(c.req, ph) && Inv(s)
    requires sec == SectionOf(cfg, c, ph, u, c.now) && Do(s, cfg.ttl, sec) == (s', r) && Next(c.req, r).None?
    ensures Ends(cfg, Through(cfg, s, c, ph, u), s', Answer(sec, r))
  {
  }

  // -------------------------------------------------------------------------- lookups

  lemma SelectingIsFull(cfg: Config, s: State, c: Call, carried: bool, u: Rand)
    requires cfg.defaultCooldown > 0 && c.req.Get? && Inv(s)
    ensures var (p, out) := SelectIn(s.def, s.members, s.cooldowns, cfg.ttl, c.req.key, c.now, false, u);
      Ends(cfg, Through(cfg, s, c, Selecting(carried), u), s.(def := p), out.member)
  {
  }

  lemma ReadingIsFull(cfg: Config, s: State, c: Call, u: Rand)
    requires cfg.defaultCooldown > 0 && c.req.Get? && c.req.key != "" && Inv(s)
    ensures var (p, out) := SelectIn(s.def, s.members, s.cooldowns, cfg.ttl, c.req.key, c.now, false, u);
      Ends(cfg, Through(cfg, s, c, Reading, u), s.(def := p), out.member)
  {
    SelectingIsFull(cfg, s, c, false, u);
    var b := s.def.bindings;
    if c.req.key in b && Live(b[c.req.key], s.members, s.cooldowns, cfg.ttl, c.now) {
      assert SectionNow(cfg, s, c, Reading, u).2 == Some(Upgrading(b[c.req.key].member));
      assert SectionNow(cfg, s, c, Upgrading(b[c.req.key].member), u).2 == None;
    }
  }

  lemma AfterCountIsFull(cfg: Config, s: State, c: Call, u: Rand)
    requires cfg.defaultCooldown > 0 && c.req.Get? && Inv(s)
    ensures var (p, out) := SelectIn(s.def, s.members, s.cooldowns, cfg.ttl, c.req.key, c.now, false, u);
      Ends(cfg, Through(cfg, s, c, AfterSingle(c.req), u), s.(def := p), out.member)
  {
    if c.req.key != "" {
      ReadingIsFull(cfg, s, c, u);
    } else {
      SelectingIsFull(cfg, s, c, false, u);
    }
  }

  /** A lookup: count, shortcut, optimistic read, re-check and full path amount to GetNow. */
  lemma GetIsGetNow(cfg: Config, s: State, c: Call, u: Rand)
    requires cfg.defaultCooldown > 0 && c.req.Get? && Inv(s)
    ensures var (s', out) := J.GetNow(s, cfg.ttl, c.req.key, c.now, u);
      Ends(cfg, Through(cfg, s, c, Counting, u), s', out.member)
  {
    AfterCountIsFull(cfg, s, c, u);
    if |s.members| == 1 {
      assert SectionNow(cfg, s, c, Counting, u).2 == Some(Single);
    } else {
      assert SectionNow(cfg, s, c, Counting, u).2 == Some(AfterSingle(c.req));
    }
  }

  lemma BackupSelectingIsFull(cfg: Config, s: State, c: Call, carried: bool, u: Rand)
    requires cfg.defaultCooldown > 0 && c.req.GetBackup? && Inv(s)
    ensures var (s', out) := BackupFullOf(s, cfg.ttl, c.req.key, c.now, carried, u);
      Ends(cfg, Through(cfg, s, c, Selecting(carried), u), s', out.member)
  {
    var (s', out) := BackupFullOf(s, cfg.ttl, c.req.key, c.now, carried, u);
    var sec := BackupFull(c.req.key, c.now, carried, u);
    EndsNow(cfg, s, c, Selecting(carried), u, sec, s', Served(out));
  }

  /** A fast path that serves ends the call. */
  lemma FastEnds(cfg: Config, s: State, c: Call, fastId: string, u: Rand, p: Pool, out: Outcome)
    requires cfg.defaultCooldown > 0 && c.req.GetBackup? && c.req.key != "" && Inv(s)
    requires FastIn(s.bak, s.members, s.cooldowns, cfg.ttl, c.req.key, fastId, c.now) == (p, Served(out))
    ensures Ends(cfg, Through(cfg, s, c, FastBackup(fastId), u), s.(bak := p), out.member)
  {
    EndsNow(cfg, s, c, FastBackup(fastId), u, BackupFast(c.req.key, fastId, c.now), s.(bak := p), Served(out));
  }

  /** The fast path of a lone backup with nothing cooling answers what the full path would. */
  lemma FastIsFull(cfg: Config, s: State, c: Call, u: Rand)
    requires cfg.defaultCooldown > 0 && c.req.GetBackup? && c.req.key != "" && Inv(s)
    requires Selectable(s.bak.refs) && |s.bak.refs| == 1 && |s.cooldowns| == 0
    ensures var (p, out) := SelectIn(s.bak, s.members, s.cooldowns, cfg.ttl, c.req.key, c.now, false, u);
      Ends(cfg, Through(cfg, s, c, FastBackup(s.bak.refs[0].id), u), s.(bak := p), out.member)
  {
    assert !InRefs(s.bak.refs, "");
    O.FastIsFull(s.bak, s.members, s.cooldowns, cfg.ttl, c.req.key, c.now, u);
    var (p, out) := SelectIn(s.bak, s.members, s.cooldowns, cfg.ttl, c.req.key, c.now, false, u);
    FastEnds(cfg, s, c, s.bak.refs[0].id, u, p, out);
  }

  /** A backup lookup amounts to GetBackupNow. */
  lemma GetBackupIsGetBackupNow(cfg: Config, s: State, c: Call, u: Rand)
    requires cfg.defaultCooldown > 0 && c.req.GetBackup? && Inv(s)
    ensures var (s', out) := J.GetBackupNow(s, cfg.ttl, c.req.key, c.now, u);
      Ends(cfg, Through(cfg, s, c, Snapping, u), s', out.member)
  {
    var next := SectionNow(cfg, s, c, Snapping, u).2;
    if Selectable(s.bak.refs) && |s.bak.refs| == 1 && |s.cooldowns| == 0 {
      if c.req.key == "" {
        assert !InRefs(s.bak.refs, "");
        O.FastIsFull(s.bak, s.members, s.cooldowns, cfg.ttl, c.req.key, c.now, u);
        assert next == None;
      } else {
        FastIsFull(cfg, s, c, u);
        assert next == Some(FastBackup(s.bak.refs[0].id));
      }
    } else if Selectable(s.bak.refs) {
      BackupSelectingIsFull(cfg, s, c, false, u);
      assert next == Some(Selecting(false));
    } else {
      assert next == None;
    }
  }

  // ------------------------------------------------------------------------- failovers

  /** The cooldown that a failure seeds: what the upstream asked for, or the default. */
  ghost predicate Seeds(cfg: Config, retryAfter: int, cd: int) {
    cd == if retryAfter > 0 then retryAfter else cfg.defaultCooldown
  }

  lemma ReselectingIsExclude(cfg: Config, s: State, c: Call, u: Rand, cd: int)
    requires cfg.defaultCooldown > 0 && (c.req.Fail? || c.req.FailBackup?) && Inv(s) && Seeds(cfg, c.req.retryAfter, cd)
    ensures var (s', m, _) := if c.req.Fail? then ExcludeOf(s, c.req.key, c.req.excluded, cd, c.now, u)
        else BackupExcludeOf(s, c.req.key, c.req.excluded, cd, c.now, u);
      Ends(cfg, Through(cfg, s, c, Reselecting, u), s', m)
  {
    var key, x := c.req.key, c.req.excluded;
    if c.req.Fail? {
      var (s', m, mode) := ExcludeOf(s, key, x, cd, c.now, u);
      EndsNow(cfg, s, c, Reselecting, u, Exclude(key, x, cd, c.now, u), s', Reselected(m, mode));
    } else {
      var (s', m, mode) := BackupExcludeOf(s, key, x, cd, c.now, u);
      EndsNow(cfg, s, c, Reselecting, u, BackupExclude(key, x, cd, c.now, u), s', Reselected(m, mode));
    }
  }

  /** A failover amounts to FailNow, with the upstream's cooldown or else the default one. */
  lemma FailIsFailNow(cfg: Config, s: State, c: Call, u: Rand, cd: int)
    requires cfg.defaultCooldown > 0 && c.req.Fail? && Inv(s) && Seeds(cfg, c.req.retryAfter, cd)
    ensures var (s', m, _) := J.FailNow(s, c.req.key, c.req.excluded, cd, c.now, u);
      Ends(cfg, Through(cfg, s, c, Counting, u), s', m)
  {
    if |s.members| == 1 {
      assert SectionNow(cfg, s, c, Counting, u).2 == None;
    } else {
      assert SectionNow(cfg, s, c, Counting, u).2 == Some(Reselecting);
      ReselectingIsExclude(cfg, s, c, u, cd);
    }
  }

  /** A backup failover amounts to FailBackupNow. */
  lemma FailBackupIsFailBackupNow(cfg: Config, s: State, c: Call, u: Rand, cd: int)
    requires cfg.defaultCooldown > 0 && c.req.FailBackup? && Inv(s) && Seeds(cfg, c.req.retryAfter, cd)
    ensures var (s', m, _) := J.FailBackupNow(s, c.req.key, c.req.excluded, cd, c.now, u);
      Ends(cfg, Through(cfg, s, c, Snapping, u), s', m)
  {
    var next := SectionNow(cfg, s, c, Snapping, u).2;
    if !Selectable(s.bak.refs) {
      assert next == None;
    } else if |s.bak.refs| == 1 {
      assert next == Some(MarkingSingle);
      assert SectionNow(cfg, s, c, MarkingSingle, u).2 == None;
    } else {
      assert next == Some(Reselecting);
      ReselectingIsExclude(cfg, s, c, u, cd);
    }
  }

  // ------------------------------------------------------------------------- the world

  /** The next `n` steps of a call, nothing in between. */
  ghost function Alone(cfg: Config, w: World, i: nat, u: Rand, n: nat): World
    requires cfg.defaultCooldown > 0 && i in w.calls
    decreases n
  {
    var e := Advance(i, u, w.calls[i].now);
    if n == 0 || !EventFits(w, e) then w else Alone(cfg, Step(cfg, w, e), i, u, n - 1)
  }

  /** One step of a call, told by its section. */
  lemma OneStep(cfg: Config, w: World, i: nat, u: Rand)
    requires cfg.defaultCooldown > 0 && i in w.calls && w.calls[i].pc.Running? && w.calls[i].pc.ref in w.heap
    requires Inv(w.heap[w.calls[i].pc.ref]) && PhaseFits(w.calls[i].req, w.calls[i].pc.phase)
    ensures var c, ref, e := w.calls[i], w.calls[i].pc.ref, Advance(i, u, w.calls[i].now);
      var (sec, s', next) := SectionNow(cfg, w.heap[ref], c, c.pc.phase, u);
      && EventFits(w, e)
      && Step(cfg, w, e) == w.(heap := w.heap[ref := s'],
           calls := w.calls[i := c.(pc := if next.None? then Finished(sec, w.heap[ref]) else Running(ref, next.value))])
  {
  }

  /** The steps of a call that nothing comes between take it through its sections, and touch nothing else. */
  lemma {:induction false} AloneIsThrough(cfg: Config, w: World, i: nat, u: Rand, n: nat)
    requires cfg.defaultCooldown > 0 && i in w.calls && w.calls[i].pc.Running? && w.calls[i].pc.ref in w.heap
    requires Inv(w.heap[w.calls[i].pc.ref]) && PhaseFits(w.calls[i].req, w.calls[i].pc.phase)
    requires Rank(w.calls[i].pc.phase) <= n
    ensures var c, ref := w.calls[i], w.calls[i].pc.ref;
      var t := Through(cfg, w.heap[ref], c, c.pc.phase, u);
      Alone(cfg, w, i, u, n) == w.(heap := w.heap[ref := t.2], calls := w.calls[i := c.(pc := Finished(t.0, t.1))])
    decreases n
  {
    var c, ref := w.calls[i], w.calls[i].pc.ref;
    var s := w.heap[ref];
    RankFalls(cfg, s, c, c.pc.phase, u);
    OneStep(cfg, w, i, u);
    var w1 := Step(cfg, w, Advance(i, u, c.now));
    var (sec, s', next) := SectionNow(cfg, s, c, c.pc.phase, u);
    if next.Some? {
      AloneIsThrough(cfg, w1, i, u, n - 1);
      PcIsNoInput(cfg, s', c, w1.calls[i], next.value, u);
      assert w.heap[ref := s'][ref := Through(cfg, s', c, next.value, u).2]
          == w.heap[ref := Through(cfg, s', c, next.value, u).2];
    } else {
      AloneEnds(cfg, w1, i, u, n - 1);
    }
  }

  lemma AloneEnds(cfg: Config, w: World, i: nat, u: Rand, n: nat)
    requires cfg.defaultCooldown > 0 && i in w.calls && w.calls[i].pc.Finished?
    ensures Alone(cfg, w, i, u, n) == w
  {
  }

  /** What a call does depends on its request and its time. */
  lemma {:induction false} PcIsNoInput(cfg: Config, s: State, c: Call, d: Call, ph: Phase, u: Rand)
    requires cfg.defaultCooldown > 0 && PhaseFits(c.req, ph) && Inv(s) && c.req == d.req && c.now == d.now
    ensures Through(cfg, s, c, ph, u) == Through(cfg, s, d, ph, u)
    decreases Rank(ph)
  {
    RankFalls(cfg, s, c, ph, u);
    var (_, s', next) := SectionNow(cfg, s, c, ph, u);
    if next.Some? {
      PcIsNoInput(cfg, s', c, d, next.value, u);
    }
  }

  // -------------------------------------------------------------- groups come and go

  /** A configuration change reaches the published state of its group; an unknown group is published under a
      state of its own, a group without members is unlinked, its state left to the calls that hold it. */
  lemma PublishingLaw(cfg: Config, w: World, g: string, refs: seq<MemberRef>)
    requires cfg.defaultCooldown > 0 && EventFits(w, Configure(g, refs)) && forall r | r in w.heap :: r < w.nextRef
    ensures var w' := Step(cfg, w, Configure(g, refs));
      && w'.calls == w.calls && w'.groups - {g} == w.groups - {g}
      && if refs == [] then g !in w'.groups && w'.heap == w.heap
         else
           && g in w'.groups && w'.groups[g] in w'.heap
           && w'.heap - {w'.groups[g]} == w.heap - {w'.groups[g]}
           && if g in w.groups then
                && w'.groups[g] == w.groups[g]
                && w'.heap[w.groups[g]] == Reconfigure(w.heap[w.groups[g]], refs)
              else
                && w'.groups[g] !in w.heap
                && w'.heap[w'.groups[g]]
                     == State(refs, Pool(Side(refs, false), map[], 0), Pool(Side(refs, true), map[], 0), map[])
  {
  }

  /** A call looks its group up first: without a published state it ends there. */
  lemma LookingUpLaw(cfg: Config, w: World, i: nat, u: Rand, clock: int)
    requires cfg.defaultCooldown > 0 && i in w.calls && w.calls[i].pc.Lookup?
    ensures var c := w.calls[i];
      var w' := Step(cfg, w, Advance(i, u, clock));
      && w'.heap == w.heap && w'.groups == w.groups && i in w'.calls
      && w'.calls[i] == c.(pc :=
           if c.req.group !in w.groups then NoGroup
           else Running(w.groups[c.req.group], if c.req.GetBackup? || c.req.FailBackup? then Snapping else Counting))
  {
  }
}
