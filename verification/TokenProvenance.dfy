/** Provenance and bounded staleness of every token verdict, and what a deletion reaches. */
module TokenProvenance {
  import opened Options
  import opened Recency
  import opened TokenCache

  /** Each entry is what the last event for its hash put there. */
  ghost predicate EntriesInv(s: seq<(string, Entry)>, log: seq<Event>, l: Limits) {
    && Distinct(s) && |s| <= l.lruCap
    && forall h | Find(s, h).Some? :: Matches(Find(s, h).value, Last(log, h), l)
  }

  ghost predicate LogInv(log: seq<Event>) {
    forall e | e in log && e.Installs? :: Vouched(log, e.hash, e.token)
  }

  /** How a validation may end. From the cache alone: the last event for the hash installed this
      token, and the moment is before both the TTL and the clamp of that installation (or the last
      event denied, no longer than the negative TTL ago). From the store: the store said so in this
      very call. Degraded: the store was unreachable, the last event for the hash, up to this
      moment, installed this token, no longer than the stale cap ago. An allowed token was always
      vouched for under the same hash. */
  ghost predicate Accounted(c: Call, reply: Reply, how: How, log: seq<Event>, l: Limits) {
    var last := Last(log, c.hash);
    && (reply.Allow? ==> Vouched(log, c.hash, reply.token))
    && match how
      case Malformed => reply == Refuse(BadFormat)
      case FromCache =>
        && !reply.Fail? && last.Some?
        && (reply.Allow? ==>
              && last.value.Installs? && last.value.token == reply.token
              && c.now < last.value.at + l.positiveTTL
              && (last.value.clamp.Some? ==> c.now < last.value.clamp.value))
        && (reply.Refuse? ==>
              && last.value.Denies? && last.value.verdict == reply.verdict
              && c.now - last.value.at <= l.negativeTTL)
      case FromStore(answer) =>
        && Answered(c.hash, answer) in log
        && match answer {
             case Vouch(token) => reply == Allow(token)
             case Deny(verdict) => reply == Refuse(verdict)
             case _ => reply == Fail
           }
      case Degraded =>
        && reply.Allow? && reply.token.Some? && Answered(c.hash, Unreachable) in log
        && last.Some? && last.value.Installs? && last.value.token == reply.token
        && c.now - last.value.at <= l.staleCap
  }

  ghost predicate CallInv(c: Call, log: seq<Event>, l: Limits) {
    match c.phase
    case Storing(answer) => Answered(c.hash, answer) in log
    case Done(reply, how, seen) => Accounted(c, reply, how, seen, l)
    case _ => true
  }

  ghost predicate Inv(w: World, l: Limits) {
    && EntriesInv(w.cache.entries, w.log, l) && LogInv(w.log)
    && (forall k | k in w.minting :: Created(w.minting[k].hash, w.minting[k].token) in w.log)
    && (forall i | i in w.calls :: CallInv(w.calls[i], w.log, l))
  }

  // -------------------------------------------------------------------- entries and log

  lemma PutKeepsEntries(s: seq<(string, Entry)>, log: seq<Event>, l: Limits, h: string, e: Entry, ev: Event)
    requires EntriesInv(s, log, l) && 1 <= l.lruCap && Concerns(ev, h) && Matches(e, Some(ev), l)
    ensures EntriesInv(Put(s, h, e, l.lruCap), log + [ev], l)
  {
    var s' := Put(s, h, e, l.lruCap);
    PutFacts(s, h, e, l.lruCap, h);
    forall k | Find(s', k).Some? ensures Matches(Find(s', k).value, Last(log + [ev], k), l) {
      PutFacts(s, h, e, l.lruCap, k);
      LastAppend(log, ev, k);
    }
  }

  lemma RemoveKeepsEntries(s: seq<(string, Entry)>, log: seq<Event>, l: Limits, h: string)
    requires EntriesInv(s, log, l)
    ensures EntriesInv(Removed(s, h), log + [Drops(h)], l)
  {
    RemovedFacts(s, h, h);
    forall k | Find(Removed(s, h), k).Some?
      ensures Matches(Find(Removed(s, h), k).value, Last(log + [Drops(h)], k), l)
    {
      RemovedFacts(s, h, k);
      LastAppend(log, Drops(h), k);
    }
  }

  lemma NoteKeepsEntries(s: seq<(string, Entry)>, log: seq<Event>, l: Limits, ev: Event)
    requires EntriesInv(s, log, l) && (ev.Answered? || ev.Created?)
    ensures EntriesInv(s, log + [ev], l)
  {
    forall h ensures Last(log + [ev], h) == Last(log, h) {
      LastAppend(log, ev, h);
    }
  }

  lemma AppendKeepsLog(log: seq<Event>, ev: Event)
    requires LogInv(log) && (ev.Installs? ==> Vouched(log, ev.hash, ev.token))
    ensures LogInv(log + [ev])
  {
  }

  lemma AppendKeepsCalls(calls: map<nat, Call>, log: seq<Event>, ev: Event, l: Limits)
    requires forall i | i in calls :: CallInv(calls[i], log, l)
    ensures forall i | i in calls :: CallInv(calls[i], log + [ev], l)
  {
    forall i | i in calls ensures CallInv(calls[i], log + [ev], l) {
      assert CallInv(calls[i], log, l);
    }
  }

  /** An entry was installed by an event of the log, so its token was vouched for. */
  lemma {:induction false} LastIsLogged(log: seq<Event>, h: string)
    ensures Last(log, h).Some? ==> Last(log, h).value in log && Concerns(Last(log, h).value, h)
  {
    if log != [] && !Concerns(log[|log| - 1], h) {
      LastIsLogged(log[..|log| - 1], h);
    }
  }

  lemma EntryIsVouched(s: seq<(string, Entry)>, log: seq<Event>, l: Limits, h: string)
    requires EntriesInv(s, log, l) && LogInv(log) && Find(s, h).Some? && Find(s, h).value.Positive?
    ensures Vouched(log, h, Find(s, h).value.token)
  {
    LastIsLogged(log, h);
  }

  // -------------------------------------------------------------------------- the steps

  lemma PeekKeeps(w: World, l: Limits, i: nat)
    requires Inv(w, l) && Fits(w, Peek(i))
    ensures Inv(Step(w, l, Peek(i)), l)
  {
    var c := w.calls[i];
    var e := Find(w.cache.entries, c.hash);
    if e.Some? && e.value.Positive? {
      EntryIsVouched(w.cache.entries, w.log, l, c.hash);
    }
    assert CallInv(Step(w, l, Peek(i)).calls[i], w.log, l);
  }

  lemma DegradedKeeps(w: World, l: Limits, i: nat)
    requires Inv(w, l) && Fits(w, Finish(i)) && w.calls[i].phase.answer.Unreachable?
    ensures Inv(Step(w, l, Finish(i)), l)
  {
    var c := w.calls[i];
    var e := Find(w.cache.entries, c.hash);
    if e.Some? && e.value.Positive? {
      EntryIsVouched(w.cache.entries, w.log, l, c.hash);
    }
    assert CallInv(c, w.log, l);
    assert CallInv(Step(w, l, Finish(i)).calls[i], w.log, l);
  }

  lemma StoringKeeps(w: World, l: Limits, i: nat)
    requires Inv(w, l) && 1 <= l.lruCap && Fits(w, Finish(i)) && !w.calls[i].phase.answer.Unreachable?
    ensures Inv(Step(w, l, Finish(i)), l)
  {
    var c := w.calls[i];
    assert CallInv(c, w.log, l);
    match c.phase.answer {
      case Vouch(token) =>
        var clamp := if token.Some? then token.value.expiresAt else None;
        var ev := Installs(c.hash, token, clamp, c.now);
        PutKeepsEntries(w.cache.entries, w.log, l, c.hash, Positive(token, c.now, FreshUntil(l, clamp, c.now)), ev);
        AppendKeepsLog(w.log, ev);
        AppendKeepsCalls(w.calls, w.log, ev, l);
      case Deny(verdict) =>
        var ev := Denies(c.hash, verdict, c.now);
        PutKeepsEntries(w.cache.entries, w.log, l, c.hash, Negative(verdict, c.now), ev);
        AppendKeepsLog(w.log, ev);
        AppendKeepsCalls(w.calls, w.log, ev, l);
      case Unclassified =>
    }
  }

  lemma StepKeeps(w: World, l: Limits, m: Move)
    requires Inv(w, l) && 1 <= l.lruCap && Fits(w, m)
    ensures Inv(Step(w, l, m), l)
  {
    match m {
      case Begin(_, _, _, _) =>
      case Peek(i) => PeekKeeps(w, l, i);
      case Finish(i) =>
        if w.calls[i].phase.answer.Unreachable? {
          DegradedKeeps(w, l, i);
        } else {
          StoringKeeps(w, l, i);
        }
      case _ => LogStepKeeps(w, l, m);
    }
  }

  lemma LogStepKeeps(w: World, l: Limits, m: Move)
    requires Inv(w, l) && 1 <= l.lruCap && Fits(w, m) && !m.Begin? && !m.Peek? && !m.Finish?
    ensures Inv(Step(w, l, m), l)
  {
    var w' := Step(w, l, m);
    if w'.log != w.log {
      var ev := w'.log[|w.log|];
      AppendKeepsLog(w.log, ev);
      AppendKeepsCalls(w.calls, w.log, ev, l);
      if ev.Answered? || ev.Created? {
        NoteKeepsEntries(w.cache.entries, w.log, l, ev);
      } else if ev.Installs? {
        PutKeepsEntries(w.cache.entries, w.log, l, ev.hash,
            Positive(ev.token, ev.at, FreshUntil(l, ev.clamp, ev.at)), ev);
      } else {
        RemoveKeepsEntries(w.cache.entries, w.log, l, ev.hash);
      }
    }
  }

  lemma {:induction false} RunKeeps(w: World, l: Limits, ms: seq<Move>)
    requires Inv(w, l) && 1 <= l.lruCap
    ensures Inv(Run(w, l, ms), l)
    decreases |ms|
  {
    if ms != [] {
      if Fits(w, ms[0]) {
        StepKeeps(w, l, ms[0]);
      }
      RunKeeps(if Fits(w, ms[0]) then Step(w, l, ms[0]) else w, l, ms[1..]);
    }
  }

  /** In every interleaving of validations, creations, deletions and permission updates, whatever
      the store answers and whatever the clock readings, every finished validation is accounted for. */
  lemma EveryVerdictIsAccounted(l: Limits, ms: seq<Move>, i: nat)
    requires 1 <= l.lruCap && i in Run(Empty, l, ms).calls && Run(Empty, l, ms).calls[i].phase.Done?
    ensures var c := Run(Empty, l, ms).calls[i];
      Accounted(c, c.phase.reply, c.phase.how, c.phase.log, l)
  {
    RunKeeps(Empty, l, ms);
    var w := Run(Empty, l, ms);
    assert CallInv(w.calls[i], w.log, l);
  }

  /** Fail-closed, evictions included: once a hash was denied or dropped, and until it is installed
      again, a validation of it is allowed only by a store that vouches in that very call. */
  lemma RefusalSticks(l: Limits, ms: seq<Move>, m: Move, i: nat, w: World, w': World)
    requires 1 <= l.lruCap && w == Run(Empty, l, ms) && Fits(w, m) && w' == Step(w, l, m)
    requires i in w.calls && !w.calls[i].phase.Done? && w'.calls[i].phase.Done? && w'.calls[i].phase.reply.Allow?
    requires var last := Last(w.log, w.calls[i].hash); last.None? || !last.value.Installs?
    ensures m == Finish(i) && w.calls[i].phase == Storing(Vouch(w'.calls[i].phase.reply.token))
    ensures Answered(w.calls[i].hash, w.calls[i].phase.answer) in w.log
  {
    RunKeeps(Empty, l, ms);
    assert CallInv(w.calls[i], w.log, l);
  }

  // ------------------------------------------------------------------ what deletion reaches

  ghost predicate Introduced(log: seq<Event>, id: string, hash: string) {
    exists e :: e in log && e.Installs? && e.token.Some? && e.token.value.id == id && e.hash == hash
  }

  /** The reverse index is bounded by its queue and points at hashes that carried the id. */
  ghost predicate IndexInv(c: Cache, log: seq<Event>, l: Limits) {
    && |c.idOrder| <= l.indexCap
    && (forall id | id in c.idToHash :: id in c.idOrder && id != "")
    && forall id | id in c.idToHash :: Introduced(log, id, c.idToHash[id])
  }

  lemma AppendKeepsIndex(c: Cache, log: seq<Event>, l: Limits, ev: Event)
    requires IndexInv(c, log, l)
    ensures IndexInv(c, log + [ev], l)
  {
    forall id | id in c.idToHash ensures Introduced(log + [ev], id, c.idToHash[id]) {
      var e :| e in log && e.Installs? && e.token.Some? && e.token.value.id == id && e.hash == c.idToHash[id];
      assert e in log + [ev];
    }
  }

  lemma IndexAfterKeeps(c: Cache, log: seq<Event>, l: Limits, id: string, hash: string, c': Cache)
    requires IndexInv(c, log, l) && 1 <= l.indexCap && Introduced(log, id, hash)
    requires (c'.idToHash, c'.idOrder) == IndexAfter(c.idToHash, c.idOrder, l.indexCap, id, hash)
    ensures IndexInv(c', log, l)
  {
    var order := c.idOrder + [id];
    assert order[|order| - 1] == id;
    if id != "" && id !in c.idToHash && |order| > l.indexCap {
      assert order[1..][|order| - 2] == id;
      forall k | k in c.idToHash && k != order[0] ensures k in order[1..] {
        var j :| 0 <= j < |c.idOrder| && c.idOrder[j] == k;
        assert order[1..][j - 1] == k;
      }
    }
  }

  lemma InstallKeepsIndex(c: Cache, log: seq<Event>, l: Limits, hash: string, token: Option<Token>,
                          clamp: Option<int>, now: int)
    requires IndexInv(c, log, l) && 1 <= l.indexCap
    ensures IndexInv(Installed(c, l, hash, token, clamp, now), log + [Installs(hash, token, clamp, now)], l)
  {
    var ev, c' := Installs(hash, token, clamp, now), Installed(c, l, hash, token, clamp, now);
    AppendKeepsIndex(c, log, l, ev);
    if token.Some? {
      assert ev in log + [ev];
      IndexAfterKeeps(c, log + [ev], l, token.value.id, hash, c');
    }
  }

  lemma StepKeepsIndex(w: World, l: Limits, m: Move)
    requires IndexInv(w.cache, w.log, l) && 1 <= l.indexCap && Fits(w, m)
    ensures IndexInv(Step(w, l, m).cache, Step(w, l, m).log, l)
  {
    match m {
      case Ask(i, answer) => AppendKeepsIndex(w.cache, w.log, l, Answered(w.calls[i].hash, answer));
      case StoreCreates(_, h, token) => AppendKeepsIndex(w.cache, w.log, l, Created(h, token));
      case InstallCreated(k, clamp, now) =>
        InstallKeepsIndex(w.cache, w.log, l, w.minting[k].hash, w.minting[k].token, clamp, now);
      case Drop(id, _) =>
        if id in w.cache.idToHash {
          AppendKeepsIndex(w.cache, w.log, l, Drops(w.cache.idToHash[id]));
        }
      case Finish(i) =>
        var c := w.calls[i];
        if c.phase.answer.Vouch? {
          var token := c.phase.answer.token;
          var clamp := if token.Some? then token.value.expiresAt else None;
          InstallKeepsIndex(w.cache, w.log, l, c.hash, token, clamp, c.now);
        } else if c.phase.answer.Deny? {
          AppendKeepsIndex(w.cache, w.log, l, Denies(c.hash, c.phase.answer.verdict, c.now));
        }
      case _ =>
    }
  }

  lemma {:induction false} RunKeepsIndex(w: World, l: Limits, ms: seq<Move>)
    requires IndexInv(w.cache, w.log, l) && 1 <= l.indexCap
    ensures IndexInv(Run(w, l, ms).cache, Run(w, l, ms).log, l)
    decreases |ms|
  {
    if ms != [] {
      if Fits(w, ms[0]) {
        StepKeepsIndex(w, l, ms[0]);
      }
      RunKeepsIndex(if Fits(w, ms[0]) then Step(w, l, ms[0]) else w, l, ms[1..]);
    }
  }

  /** A token id belongs to one hash. */
  ghost predicate OneHashPerId(log: seq<Event>) {
    forall id, h, h' | Introduced(log, id, h) && Introduced(log, id, h') :: h == h'
  }

  ghost predicate HoldsToken(s: seq<(string, Entry)>, h: string, id: string) {
    var e := Find(s, h);
    e.Some? && e.value.Positive? && e.value.token.Some? && e.value.token.value.id == id
  }

  ghost predicate HoldsId(s: seq<(string, Entry)>, id: string) {
    exists h :: HoldsToken(s, h, id)
  }

  lemma HeldIsIntroduced(s: seq<(string, Entry)>, log: seq<Event>, l: Limits, h: string, id: string)
    requires EntriesInv(s, log, l) && HoldsToken(s, h, id)
    ensures Introduced(log, id, h)
  {
    LastIsLogged(log, h);
    assert Matches(Find(s, h).value, Last(log, h), l);
  }

  /** A deletion or a permission update clears the cached token exactly when the reverse index still
      knows the id; an id that fell out of the bounded index leaves its entry to expire. */
  lemma DropReachesIff(l: Limits, ms: seq<Move>, id: string, forget: bool, w: World)
    requires 1 <= l.lruCap && 1 <= l.indexCap && w == Run(Empty, l, ms) && OneHashPerId(w.log)
    ensures HoldsId(Dropped(w.cache, id, forget).entries, id)
        <==> HoldsId(w.cache.entries, id) && id !in w.cache.idToHash
    ensures |w.cache.idOrder| <= l.indexCap && w.cache.idToHash.Keys <= set x | x in w.cache.idOrder
  {
    RunKeeps(Empty, l, ms);
    RunKeepsIndex(Empty, l, ms);
    if id in w.cache.idToHash {
      forall h ensures !HoldsToken(Dropped(w.cache, id, forget).entries, h, id) {
        RemovedFacts(w.cache.entries, w.cache.idToHash[id], h);
        if HoldsToken(w.cache.entries, h, id) {
          HeldIsIntroduced(w.cache.entries, w.log, l, h, id);
        }
      }
    }
  }
}
