/** Affinity of a conversation to its credential over runs of lock sections of the credential engine,
    and one tick of Failovers per move. */
module CredentialAffinity {
  import opened Options
  import opened WeightedPool
  import opened StickyPool
  import opened CredentialEngine
  import opened GroupAffinity

  /** The conversation's row and the cooldown row of its credential. */
  ghost predicate Held(m: Model, a: Anchor) {
    && a.key != "" && a.key in m.pool.bindings && m.pool.bindings[a.key] == Binding(a.member, a.at)
    && InRefs(m.pool.refs, a.member)
    && (a.member in m.cooldowns ==> a.row == Some(m.cooldowns[a.member]))
  }

  /** What the environment must grant: the conversation's own sections and the janitor come no later than
      ttl after the last refresh, nobody excludes the credential, and it is neither dropped nor deleted.
      Failures of other credentials, of this conversation as of others, are free. */
  ghost predicate Considerate(sec: CredentialEngine.Section, a: Anchor, ttl: int) {
    match sec
    case Read(k, now) => k == a.key ==> now - a.at <= ttl && Clear(a, now)
    case Upgrade(k, _, now) => k == a.key ==> now - a.at <= ttl && Clear(a, now)
    case Full(k, now, _) => k == a.key ==> now - a.at <= ttl && Clear(a, now)
    case Exclude(k, x, _, now, _) => x != a.member && (k == a.key ==> Clear(a, now))
    case Change(refs) => InRefs(refs, a.member)
    case Delete(id) => id != a.member
    case Sweep(now) => now - a.at <= ttl
  }

  ghost function Renewed(a: Anchor, sec: CredentialEngine.Section): Anchor {
    if (sec.Full? && sec.key == a.key) || (sec.Upgrade? && sec.key == a.key && sec.hit == a.member)
    then a.(at := sec.now) else a
  }

  /** The conversation is answered with its credential: its lookups tick Hits, its failures tick nothing. */
  ghost predicate Answered(m: Model, ttl: int, sec: CredentialEngine.Section, a: Anchor) {
    var (m', r) := CredentialEngine.Do(m, ttl, sec);
    match sec
    case Read(k, _) => k == a.key ==> r == CredentialEngine.Hit(Some(a.member)) && m' == m
    case Upgrade(k, hit, _) => k == a.key ==>
        && r == CredentialEngine.Refreshed(hit == a.member)
        && m'.stats == if hit == a.member then Hits(m).stats else m.stats
    case Full(k, _, _) => k == a.key ==>
        r == CredentialEngine.Served(Outcome(a.member, false, false, false)) && m'.stats == Hits(m).stats
    case Exclude(k, x, cd, now, _) => k == a.key ==>
        r == CredentialEngine.Reselected(a.member, ReselectHealthy) && m' == m.(cooldowns := m.cooldowns[x := now + cd])
    case _ => true
  }

  lemma CallAnswers(m: Model, ttl: int, sec: CredentialEngine.Section, a: Anchor)
    requires Held(m, a) && CredentialEngine.Legal(sec) && Considerate(sec, a, ttl)
    requires sec.Read? || sec.Upgrade? || sec.Full? || sec.Exclude?
    ensures Answered(m, ttl, sec, a) && Held(CredentialEngine.Do(m, ttl, sec).0, Renewed(a, sec))
  {
    match sec {
      case Read(_, _) =>
      case Upgrade(_, _, _) =>
      case Full(_, _, _) =>
      case Exclude(_, _, _, _, _) => FailureAnswers(m, ttl, sec, a);
    }
  }

  lemma FailureAnswers(m: Model, ttl: int, sec: CredentialEngine.Section, a: Anchor)
    requires Held(m, a) && CredentialEngine.Legal(sec) && Considerate(sec, a, ttl) && sec.Exclude?
    ensures Answered(m, ttl, sec, a) && Held(CredentialEngine.Do(m, ttl, sec).0, a)
  {
  }

  lemma UpkeepHolds(m: Model, ttl: int, sec: CredentialEngine.Section, a: Anchor)
    requires Held(m, a) && Considerate(sec, a, ttl) && (sec.Change? || sec.Delete? || sec.Sweep?)
    ensures Held(CredentialEngine.Do(m, ttl, sec).0, a)
  {
    match sec {
      case Change(refs) => assert a.key !in Orphans(m.pool.bindings, refs);
      case Delete(_) =>
      case Sweep(now) => assert a.key !in Idle(m.pool.bindings, ttl, now);
    }
  }

  lemma StepAnswers(m: Model, ttl: int, sec: CredentialEngine.Section, a: Anchor)
    requires Held(m, a) && CredentialEngine.Legal(sec) && Considerate(sec, a, ttl)
    ensures Answered(m, ttl, sec, a) && Held(CredentialEngine.Do(m, ttl, sec).0, Renewed(a, sec))
  {
    if sec.Change? || sec.Delete? || sec.Sweep? {
      UpkeepHolds(m, ttl, sec, a);
    } else {
      CallAnswers(m, ttl, sec, a);
    }
  }

  ghost predicate ConsiderateRun(tr: seq<CredentialEngine.Section>, a: Anchor, ttl: int)
    decreases |tr|
  {
    tr != [] ==>
      CredentialEngine.Legal(tr[0]) && Considerate(tr[0], a, ttl) && ConsiderateRun(tr[1..], Renewed(a, tr[0]), ttl)
  }

  ghost predicate AnsweredRun(m: Model, ttl: int, tr: seq<CredentialEngine.Section>, a: Anchor)
    decreases |tr|
  {
    Held(m, a) && (tr != [] ==>
      && Answered(m, ttl, tr[0], a)
      && AnsweredRun(CredentialEngine.Do(m, ttl, tr[0]).0, ttl, tr[1..], Renewed(a, tr[0])))
  }

  /** In any considerate run, interleaved with lookups and failovers of other conversations, configuration
      changes, deletions and sweeps, every section of the conversation answers its credential. */
  lemma {:induction false} AffinityHolds(m: Model, ttl: int, tr: seq<CredentialEngine.Section>, a: Anchor)
    requires Held(m, a) && ConsiderateRun(tr, a, ttl)
    ensures AnsweredRun(m, ttl, tr, a)
    decreases |tr|
  {
    if tr != [] {
      StepAnswers(m, ttl, tr[0], a);
      AffinityHolds(CredentialEngine.Do(m, ttl, tr[0]).0, ttl, tr[1..], Renewed(a, tr[0]));
    }
  }

  ghost function AnchorIn(m: Model, key: string): Anchor
    requires key in m.pool.bindings
  {
    var b := m.pool.bindings[key];
    Anchor(key, b.member, b.boundAt, if b.member in m.cooldowns then Some(m.cooldowns[b.member]) else None)
  }

  /** One move per failure: a healthy failover holds the conversation with what it answered, and in every
      considerate run after it further failures of the conversation answer that credential and change
      nothing but their mark, so that Failovers has counted the move once. */
  lemma OneMovePerFailure(m: Model, ttl: int, key: string, x: string, cd: int, now: int, u: Rand,
                          tr: seq<CredentialEngine.Section>)
    requires Inv(m) && key != "" && cd > 0 && Reselect(m, key, x, cd, now, u).2 == ReselectHealthy
    requires var m' := Reselect(m, key, x, cd, now, u).0;
      key in m'.pool.bindings && ConsiderateRun(tr, AnchorIn(m', key), ttl)
    ensures var (m', c, _) := Reselect(m, key, x, cd, now, u);
      AnchorIn(m', key).member == c && c != x && AnsweredRun(m', ttl, tr, AnchorIn(m', key))
  {
    var m' := Reselect(m, key, x, cd, now, u).0;
    FailoverTicks(m, key, x, cd, now, u);
    AffinityHolds(m', ttl, tr, AnchorIn(m', key));
  }
}
