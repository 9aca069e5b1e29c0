/** What a validation answers in every case, how long an answer of the store is replayed, and what the
    index and a deletion do, told in the entries and times themselves. */
module TokenLaws {
  import opened Options
  import opened Recency
  import opened TokenCache
  import T = TokenStoreObject

  // --------------------------------------------------------------------- one validation

  /** A cached answer that still stands: a denial no older than the negative TTL, a token before its end. */
  ghost predicate Stands(c: Cache, l: Limits, hash: string, now: int, r: Reply) {
    var e: Option<Entry> := Find(c.entries, hash);
    match e
    case Some(Negative(v, at)) => now - at <= l.negativeTTL && r == Refuse(v)
    case Some(Positive(token, _, until)) => now < until && r == Allow(token)
    case None => false
  }

  /** When a token installed at `at` stops being fresh: the positive TTL later, or earlier at its own end. */
  ghost predicate FreshTill(l: Limits, clamp: Option<int>, at: int, until: int) {
    && until <= at + l.positiveTTL && (clamp.Some? ==> until <= clamp.value)
    && (until == at + l.positiveTTL || (clamp.Some? && until == clamp.value))
  }

  lemma FreshTillLaw(l: Limits, clamp: Option<int>, at: int)
    ensures FreshTill(l, clamp, at, FreshUntil(l, clamp, at))
    ensures forall until | FreshTill(l, clamp, at, until) :: until == FreshUntil(l, clamp, at)
  {
  }

  /** What the store's answer leaves and yields once it is asked. */
  ghost predicate StoreDecides(c: Cache, l: Limits, hash: string, now: int, a: StoreAnswer, c': Cache, r: Reply) {
    match a
    case Vouch(token) =>
      && r == Allow(token)
      && exists until ::
           && FreshTill(l, if token.Some? then token.value.expiresAt else None, now, until)
           && Find(c'.entries, hash) == Some(Positive(token, now, until))
    case Deny(v) => r == Refuse(v) && Find(c'.entries, hash) == Some(Negative(v, now))
    case Unreachable =>
      var e: Option<Entry> := Find(c.entries, hash);
      c' == c && (match e
        case Some(Positive(Some(token), at, _)) => r == if now - at <= l.staleCap then Allow(Some(token)) else Fail
        case _ => r == Fail)
    case Unclassified => c' == c && r == Fail
  }

  lemma InstalledIsFound(c: Cache, l: Limits, hash: string, token: Option<Token>, clamp: Option<int>, now: int)
    requires Distinct(c.entries) && 1 <= l.lruCap
    ensures exists until ::
      FreshTill(l, clamp, now, until)
      && Find(Installed(c, l, hash, token, clamp, now).entries, hash) == Some(Positive(token, now, until))
  {
    var until := FreshUntil(l, clamp, now);
    FreshTillLaw(l, clamp, now);
    PutFacts(c.entries, hash, Positive(token, now, until), l.lruCap, hash);
  }

  /** A malformed token is refused and a standing answer replayed, without a look at the store and without a
      trace; in every other case the store decides. */
  lemma ValidationLaw(c: Cache, l: Limits, wellFormed: bool, hash: string, now: int, a: StoreAnswer)
    requires Distinct(c.entries) && 1 <= l.lruCap
    ensures var (c', r) := T.Validated(c, l, wellFormed, hash, now, a);
      if !wellFormed then c' == c && r == Refuse(BadFormat)
      else if exists s :: Stands(c, l, hash, now, s) then c' == c && Stands(c, l, hash, now, r)
      else StoreDecides(c, l, hash, now, a, c', r)
  {
    var (c', r) := T.Validated(c, l, true, hash, now, a);
    if wellFormed && (exists s :: Stands(c, l, hash, now, s)) {
      var s :| Stands(c, l, hash, now, s);
      assert r == s;
    } else if wellFormed {
      StoreIsAsked(c, l, hash, now, a);
    }
  }

  lemma StoreIsAsked(c: Cache, l: Limits, hash: string, now: int, a: StoreAnswer)
    requires Distinct(c.entries) && 1 <= l.lruCap && !exists s :: Stands(c, l, hash, now, s)
    ensures var (c', r) := T.Validated(c, l, true, hash, now, a); StoreDecides(c, l, hash, now, a, c', r)
  {
    var e: Option<Entry> := Find(c.entries, hash);
    match e {
      case Some(Negative(v, at)) => assert !Stands(c, l, hash, now, Refuse(v));
      case Some(Positive(token, _, _)) => assert !Stands(c, l, hash, now, Allow(token));
      case None =>
    }
    match a {
      case Vouch(token) =>
        InstalledIsFound(c, l, hash, token, if token.Some? then token.value.expiresAt else None, now);
      case Deny(v) => PutFacts(c.entries, hash, Negative(v, now), l.lruCap, hash);
      case _ =>
    }
  }

  /** The peeking section of an interleaved validation ends the call exactly with a standing answer. */
  lemma PeekLaw(w: World, l: Limits, i: nat)
    requires Fits(w, Peek(i))
    ensures var w', c := Step(w, l, Peek(i)), w.calls[i];
      && w'.cache == w.cache && w'.log == w.log
      && if exists s :: Stands(w.cache, l, c.hash, c.now, s)
         then w'.calls[i].phase.Done? && Stands(w.cache, l, c.hash, c.now, w'.calls[i].phase.reply)
         else w'.calls[i].phase == Asking
  {
    var c := w.calls[i];
    var e: Option<Entry> := Find(w.cache.entries, c.hash);
    match e {
      case Some(Negative(v, at)) =>
        if c.now - at <= l.negativeTTL {
          assert Stands(w.cache, l, c.hash, c.now, Refuse(v));
        }
      case Some(Positive(token, _, until)) =>
        if c.now < until {
          assert Stands(w.cache, l, c.hash, c.now, Allow(token));
        }
      case None =>
    }
  }

  // ------------------------------------------------------------- how long answers last

  /** A denial is replayed for the negative TTL, whatever the store would say by then. */
  lemma DenialIsReplayed(c: Cache, l: Limits, hash: string, at: int, v: Verdict, now: int, a: StoreAnswer)
    requires Distinct(c.entries) && 1 <= l.lruCap && now - at <= l.negativeTTL
    requires !exists s :: Stands(c, l, hash, at, s)
    ensures var c1 := T.Validated(c, l, true, hash, at, Deny(v)).0;
      T.Validated(c1, l, true, hash, now, a) == (c1, Refuse(v))
  {
    StoreIsAsked(c, l, hash, at, Deny(v));
  }

  /** A token that the store vouched for is replayed until the positive TTL or its own end, whichever comes
      first, whatever the store would say by then. */
  lemma VouchedIsReplayed(c: Cache, l: Limits, hash: string, at: int, token: Token, now: int, a: StoreAnswer)
    requires Distinct(c.entries) && 1 <= l.lruCap && !exists s :: Stands(c, l, hash, at, s)
    requires now < at + l.positiveTTL && (token.expiresAt.Some? ==> now < token.expiresAt.value)
    ensures var c1 := T.Validated(c, l, true, hash, at, Vouch(Some(token))).0;
      T.Validated(c1, l, true, hash, now, a) == (c1, Allow(Some(token)))
  {
    StoreIsAsked(c, l, hash, at, Vouch(Some(token)));
  }

  // ------------------------------------------------------------------ index and deletion

  /** Indexing an id: it leads to its hash; a known id moves nothing else, a new one joins the queue, and
      only when the queue was full does the oldest id go, alone. */
  lemma IndexLaw(rows: map<string, string>, queue: seq<string>, cap: nat, id: string, hash: string)
    requires |queue| <= cap && 1 <= cap
    ensures var (rows', queue') := IndexAfter(rows, queue, cap, id, hash);
      if id == "" then rows' == rows && queue' == queue
      else
        && id in rows' && rows'[id] == hash
        && if id in rows then queue' == queue && rows' - {id} == rows - {id}
           else if |queue| < cap then queue' == queue + [id] && rows' - {id} == rows
           else queue' == queue[1..] + [id] && rows' - {id} == rows - {queue[0]}
  {
    if id != "" && id !in rows && |queue| == cap {
      assert (queue + [id])[1..] == queue[1..] + [id];
      if queue[0] == id {
        assert rows - {id} == rows;
      }
      var rows' := IndexAfter(rows, queue, cap, id, hash).0;
      assert rows' - {id} == rows - {queue[0]};
    }
  }

  /** A deletion, or a permission change, of an indexed id clears the entry of its hash and no other; only a
      deletion forgets the id. An id that is not indexed changes nothing. */
  lemma DropLaw(c: Cache, id: string, forget: bool, hash: string)
    ensures var c' := Dropped(c, id, forget);
      if id !in c.idToHash then c' == c
      else
        && Find(c'.entries, hash) == (if hash == c.idToHash[id] then None else Find(c.entries, hash))
        && c'.idToHash == (if forget then c.idToHash - {id} else c.idToHash) && c'.idOrder == c.idOrder
  {
    if id in c.idToHash {
      RemovedFacts(c.entries, c.idToHash[id], hash);
    }
  }

  /** A token just installed is reached by the deletion of its id. */
  lemma DropReachesTheNewest(c: Cache, l: Limits, hash: string, token: Token, clamp: Option<int>, now: int,
                             forget: bool)
    requires |c.idOrder| <= l.indexCap && 1 <= l.indexCap && token.id != ""
    ensures Find(Dropped(Installed(c, l, hash, Some(token), clamp, now), token.id, forget).entries, hash) == None
  {
    IndexLaw(c.idToHash, c.idOrder, l.indexCap, token.id, hash);
    DropLaw(Installed(c, l, hash, Some(token), clamp, now), token.id, forget, hash);
  }
}
