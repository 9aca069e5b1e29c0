/** Affinity of whole calls: in every interleaving that is gentle to a conversation, each of its
    lookups returns the member it is held by. */
module GroupAffinityRuns {
  import opened Options
  import opened WeightedPool
  import opened StickyPool
  import opened GroupSections
  import opened GroupInterleaving
  import A = GroupAffinity

  /** The section that an event runs on the group state `ref`, if it runs one. */
  ghost function SectionOn(cfg: Config, w: World, e: Event, ref: nat): Option<Section>
    requires cfg.defaultCooldown > 0 && EventFits(w, e)
  {
    match e
    case Begin(_, _, _) => None
    case Advance(i, u, clock) =>
      var c := w.calls[i];
      if c.pc.Running? && c.pc.ref == ref then Some(SectionOf(cfg, c, c.pc.phase, u, clock)) else None
    case Configure(g, refs) => if refs != [] && g in w.groups && w.groups[g] == ref then Some(Change(refs)) else None
    case Janitor(g, now) => if w.groups[g] == ref then Some(Sweep(now)) else None
  }

  ghost function StateAfter(cfg: Config, s: State, sec: Option<Section>): State
    requires sec.Some? ==> Enabled(s, sec.value)
  {
    if sec.None? then s else Do(s, cfg.ttl, sec.value).0
  }

  lemma SectionIsEnabled(cfg: Config, w: World, e: Event, ref: nat)
    requires cfg.defaultCooldown > 0 && EventFits(w, e) && ref in w.heap
    ensures SectionOn(cfg, w, e, ref).Some? ==> Enabled(w.heap[ref], SectionOn(cfg, w, e, ref).value)
  {
  }

  /** An event changes a group state by that section and in no other way. */
  lemma StepOnState(cfg: Config, w: World, e: Event, ref: nat)
    requires cfg.defaultCooldown > 0 && EventFits(w, e) && ref in w.heap && ref < w.nextRef
    ensures SectionOn(cfg, w, e, ref).Some? ==> Enabled(w.heap[ref], SectionOn(cfg, w, e, ref).value)
    ensures ref in Step(cfg, w, e).heap
    ensures Step(cfg, w, e).heap[ref] == StateAfter(cfg, w.heap[ref], SectionOn(cfg, w, e, ref))
  {
    SectionIsEnabled(cfg, w, e, ref);
    match e {
      case Begin(_, _, _) =>
      case Advance(_, _, _) =>
      case Configure(_, _) =>
      case Janitor(_, _) =>
    }
  }

  ghost function AnchorAfter(a: A.Anchor, sec: Option<Section>): A.Anchor {
    if sec.None? then a else A.Moved(a, sec.value)
  }

  /** The run goes on; an event that is not possible is skipped. */
  ghost function NextWorld(cfg: Config, w: World, e: Event): World
    requires cfg.defaultCooldown > 0
  {
    if EventFits(w, e) then Step(cfg, w, e) else w
  }

  ghost function NextAnchor(cfg: Config, w: World, e: Event, ref: nat, a: A.Anchor): A.Anchor
    requires cfg.defaultCooldown > 0
  {
    if EventFits(w, e) then AnchorAfter(a, SectionOn(cfg, w, e, ref)) else a
  }

  ghost predicate GentleEvent(cfg: Config, w: World, e: Event, ref: nat, a: A.Anchor)
    requires cfg.defaultCooldown > 0
  {
    EventFits(w, e) && SectionOn(cfg, w, e, ref).Some? ==> A.Gentle(SectionOn(cfg, w, e, ref).value, a, cfg.ttl)
  }

  /** Every event is gentle to the conversation and leaves the group two members or more. */
  ghost predicate GentleEvents(cfg: Config, w: World, es: seq<Event>, ref: nat, a: A.Anchor)
    requires cfg.defaultCooldown > 0
    decreases |es|
  {
    && ref in w.heap && |w.heap[ref].members| >= 2
    && (es != [] ==>
          && GentleEvent(cfg, w, es[0], ref, a)
          && GentleEvents(cfg, NextWorld(cfg, w, es[0]), es[1..], ref, NextAnchor(cfg, w, es[0], ref, a)))
  }

  /** No lookup on this state is on its way to the single-member shortcut. */
  ghost predicate NoShortcut(w: World, ref: nat) {
    forall i | i in w.calls && w.calls[i].pc.Running? && w.calls[i].pc.ref == ref :: !w.calls[i].pc.phase.Single?
  }

  /** A lookup of the conversation that this event finishes returns the member. */
  ghost predicate AnswersMember(cfg: Config, w: World, e: Event, ref: nat, a: A.Anchor)
    requires cfg.defaultCooldown > 0 && EventFits(w, e)
  {
    e.Advance? && w.calls[e.call].pc.Running? && w.calls[e.call].pc.ref == ref
    && w.calls[e.call].req.Get? && w.calls[e.call].req.key == a.key
    && Step(cfg, w, e).calls[e.call].pc.Finished? ==>
      var c := Step(cfg, w, e).calls[e.call];
      Enabled(c.pc.before, c.pc.sec) && AnswerOf(cfg, c) == a.member
  }

  ghost predicate AlwaysAnswersMember(cfg: Config, w: World, es: seq<Event>, ref: nat, a: A.Anchor)
    requires cfg.defaultCooldown > 0
    decreases |es|
  {
    es != [] ==>
      && (EventFits(w, es[0]) ==> AnswersMember(cfg, w, es[0], ref, a))
      && AlwaysAnswersMember(cfg, NextWorld(cfg, w, es[0]), es[1..], ref, a)
  }

  lemma StepAnswers(cfg: Config, w: World, e: Event, ref: nat, a: A.Anchor)
    requires cfg.defaultCooldown > 0 && EventFits(w, e) && ref in w.heap && A.Anchored(w.heap[ref], a)
    requires NoShortcut(w, ref)
    requires |w.heap[ref].members| >= 2
    requires var sec := SectionOn(cfg, w, e, ref); sec.Some? ==> A.Gentle(sec.value, a, cfg.ttl)
    ensures AnswersMember(cfg, w, e, ref, a)
  {
    if e.Advance? && w.calls[e.call].pc.Running? && w.calls[e.call].pc.ref == ref
       && w.calls[e.call].req.Get? && w.calls[e.call].req.key == a.key
    {
      SectionIsEnabled(cfg, w, e, ref);
      var sec := SectionOn(cfg, w, e, ref).value;
      A.StepIsLoyal(w.heap[ref], cfg.ttl, sec, a);
      LoyalAnswer(w.heap[ref], cfg, w.calls[e.call], w.calls[e.call].pc.phase, e.u, e.clock, a);
    }
  }

  /** Of the sections of a lookup, only those that answer with the member end it. */
  lemma LoyalAnswer(s: State, cfg: Config, c: Call, ph: Phase, u: Rand, clock: int, a: A.Anchor)
    requires cfg.defaultCooldown > 0 && PhaseFits(c.req, ph) && c.req.Get? && c.req.key == a.key && !ph.Single?
    requires |s.members| >= 2
    requires var sec := SectionOf(cfg, c, ph, u, clock); A.Loyal(sec, Do(s, cfg.ttl, sec).1, a)
    ensures var sec := SectionOf(cfg, c, ph, u, clock);
      Next(c.req, Do(s, cfg.ttl, sec).1).None? ==> Answer(sec, Do(s, cfg.ttl, sec).1) == a.member
  {
    var sec := SectionOf(cfg, c, ph, u, clock);
    var r := Do(s, cfg.ttl, sec).1;
    match ph {
      case Counting => assert r == Size(|s.members|);
      case Reading => assert r.Hit?;
      case Upgrading(hit) => assert r == Refreshed(hit == a.member);
      case Selecting(_) => assert r == Served(Outcome(a.member, false, false, false));
    }
  }

  lemma NoShortcutKept(cfg: Config, w: World, e: Event, ref: nat)
    requires cfg.defaultCooldown > 0 && EventFits(w, e) && ref in w.heap && |w.heap[ref].members| >= 2
    requires NoShortcut(w, ref)
    ensures NoShortcut(Step(cfg, w, e), ref)
  {
    var w' := Step(cfg, w, e);
    forall i | i in w'.calls && w'.calls[i].pc.Running? && w'.calls[i].pc.ref == ref
      ensures !w'.calls[i].pc.phase.Single?
    {
      if e.Advance? && e.call == i && w.calls[i].pc.Running? {
        NotToShortcut(w.heap[ref], cfg, w.calls[i], w.calls[i].pc.phase, e.u, e.clock);
      }
    }
  }

  lemma NotToShortcut(s: State, cfg: Config, c: Call, ph: Phase, u: Rand, clock: int)
    requires cfg.defaultCooldown > 0 && PhaseFits(c.req, ph) && |s.members| >= 2
    ensures var next := Next(c.req, Do(s, cfg.ttl, SectionOf(cfg, c, ph, u, clock)).1);
      next.Some? ==> !next.value.Single?
  {
    var r := Do(s, cfg.ttl, SectionOf(cfg, c, ph, u, clock)).1;
    match ph {
      case Counting => assert r == Size(|s.members|);
      case Single => assert r.Head?;
      case Reading => assert r.Hit?;
      case Upgrading(_) => assert r.Refreshed?;
      case Selecting(_) => assert r.Served?;
      case Snapping => assert r.Snapshot?;
      case FastBackup(_) => assert r.Served? || r.Retry?;
      case MarkingSingle => assert r.Marked?;
      case Reselecting => assert r.Reselected?;
    }
  }

  /** A gentle event keeps the heap sound and the conversation anchored. */
  lemma AnchorFollows(cfg: Config, w: World, e: Event, ref: nat, a: A.Anchor)
    requires cfg.defaultCooldown > 0 && EventFits(w, e) && Sound(w, Good) && ref in w.heap && A.Anchored(w.heap[ref], a)
    requires var sec := SectionOn(cfg, w, e, ref); sec.Some? ==> A.Gentle(sec.value, a, cfg.ttl)
    ensures var w' := Step(cfg, w, e);
      Sound(w', Good) && ref in w'.heap && A.Anchored(w'.heap[ref], AnchorAfter(a, SectionOn(cfg, w, e, ref)))
  {
    var sec := SectionOn(cfg, w, e, ref);
    GoodIsKept(cfg.ttl);
    StepKeepsSound(cfg, w, e, Good);
    StepOnState(cfg, w, e, ref);
    if sec.Some? {
      A.StepIsLoyal(w.heap[ref], cfg.ttl, sec.value, a);
    }
  }

  /** Everything in place for the next event. */
  ghost predicate Ready(w: World, ref: nat, a: A.Anchor) {
    Sound(w, Good) && NoShortcut(w, ref) && ref in w.heap && A.Anchored(w.heap[ref], a)
  }

  /** One gentle event: a right answer, and everything in place again. */
  lemma GentleStep(cfg: Config, w: World, e: Event, ref: nat, a: A.Anchor)
    requires cfg.defaultCooldown > 0 && Ready(w, ref, a) && |w.heap[ref].members| >= 2 && GentleEvent(cfg, w, e, ref, a)
    ensures EventFits(w, e) ==> AnswersMember(cfg, w, e, ref, a)
    ensures Ready(NextWorld(cfg, w, e), ref, NextAnchor(cfg, w, e, ref, a))
  {
    if EventFits(w, e) {
      StepAnswers(cfg, w, e, ref, a);
      NoShortcutKept(cfg, w, e, ref);
      AnchorFollows(cfg, w, e, ref, a);
    }
  }

  /** While a conversation's calls keep within the TTL of one another, nobody cools or removes its
      member, and the group has two members or more: every lookup of it, in every interleaving, with
      any weight edits, pool flips, sweeps and calls of others in between, returns that member. */
  lemma {:induction false} EveryLookupKeepsAffinity(cfg: Config, w: World, es: seq<Event>, ref: nat, a: A.Anchor)
    requires cfg.defaultCooldown > 0 && Ready(w, ref, a) && GentleEvents(cfg, w, es, ref, a)
    ensures AlwaysAnswersMember(cfg, w, es, ref, a)
    decreases |es|
  {
    if es != [] {
      var w', a' := NextWorld(cfg, w, es[0]), NextAnchor(cfg, w, es[0], ref, a);
      GentleStep(cfg, w, es[0], ref, a);
      EveryLookupKeepsAffinity(cfg, w', es[1..], ref, a');
      SameMember(cfg, w', es[1..], ref, a, a');
    }
  }

  lemma {:induction false} SameMember(cfg: Config, w: World, es: seq<Event>, ref: nat, a: A.Anchor, a': A.Anchor)
    requires cfg.defaultCooldown > 0 && a.key == a'.key && a.member == a'.member
    requires AlwaysAnswersMember(cfg, w, es, ref, a')
    ensures AlwaysAnswersMember(cfg, w, es, ref, a)
    decreases |es|
  {
    if es != [] {
      SameMember(cfg, NextWorld(cfg, w, es[0]), es[1..], ref, a, a');
    }
  }
}
