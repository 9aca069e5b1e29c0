/** Runs of the token cache, from the empty one, that reach the far side of its exact conditions. */
module TokenWitnesses {
  import opened Options
  import opened Recency
  import opened TokenCache
  import opened TokenProvenance
  import opened TokenRevocation

  // --------------------------------------------------------- an expired token is served

  /** A validation that missed and was answered. */
  lemma AskedFromEmpty(l: Limits, h: string, t: Token) returns (ms: seq<Move>, w: World)
    requires 1 <= l.lruCap
    ensures w == Run(Empty, l, ms) && w.calls.Keys == {0}
    ensures Find(w.cache.entries, h) == Some(Positive(Some(t), 0, FreshUntil(l, t.expiresAt, 0)))
  {
    ms, w := [], Empty;
    RunOneMore(Empty, l, ms, Begin(0, true, h, 0));
    ms, w := ms + [Begin(0, true, h, 0)], Step(w, l, Begin(0, true, h, 0));
    RunOneMore(Empty, l, ms, Peek(0));
    ms, w := ms + [Peek(0)], Step(w, l, Peek(0));
    RunOneMore(Empty, l, ms, Ask(0, Vouch(Some(t))));
    ms, w := ms + [Ask(0, Vouch(Some(t)))], Step(w, l, Ask(0, Vouch(Some(t))));
    PutFacts([], h, Positive(Some(t), 0, FreshUntil(l, t.expiresAt, 0)), l.lruCap, h);
    RunOneMore(Empty, l, ms, Finish(0));
    ms, w := ms + [Finish(0)], Step(w, l, Finish(0));
  }

  /** The token expires at 1; a validation at 1 finds the store unreachable and allows it. */
  lemma ExpiredTokenIsServed(l: Limits, h: string, t: Token) returns (ms: seq<Move>)
    requires 1 <= l.lruCap && 1 <= l.staleCap && t.expiresAt == Some(1)
    ensures var w := Run(Empty, l, ms);
      1 in w.calls && w.calls[1].now >= t.expiresAt.value
      && w.calls[1].phase.Done? && w.calls[1].phase.reply == Allow(Some(t)) && w.calls[1].phase.how == Degraded
  {
    var w;
    ms, w := AskedFromEmpty(l, h, t);
    RunOneMore(Empty, l, ms, Begin(1, true, h, 1));
    ms, w := ms + [Begin(1, true, h, 1)], Step(w, l, Begin(1, true, h, 1));
    RunOneMore(Empty, l, ms, Peek(1));
    ms, w := ms + [Peek(1)], Step(w, l, Peek(1));
    RunOneMore(Empty, l, ms, Ask(1, Unreachable));
    ms, w := ms + [Ask(1, Unreachable)], Step(w, l, Ask(1, Unreachable));
    RunOneMore(Empty, l, ms, Finish(1));
    ms := ms + [Finish(1)];
  }

  // ----------------------------------------------------- an id falls out of the index

  /** Pairwise different ids. */
  function Name(k: nat): (s: string)
    ensures |s| == k + 1
  {
    seq(k + 1, _ => 'x')
  }

  function Names(n: nat): seq<string> {
    seq(n, k requires 0 <= k < n => Name(k))
  }

  /** Nothing is under way and nothing cached is fresh at the TTL any more. */
  ghost predicate Idle(w: World, l: Limits) {
    && w.minting == map[] && w.calls == map[] && Distinct(w.cache.entries)
    && forall h | Find(w.cache.entries, h).Some? :: Definitive(Find(w.cache.entries, h), l, l.positiveTTL).None?
  }

  /** The first `n` tokens were created one after the other. */
  ghost predicate Indexed(c: Cache, n: nat) {
    && c.idOrder == Names(n)
    && (forall k | 0 <= k < n :: Name(k) in c.idToHash && c.idToHash[Name(k)] == Name(k))
    && (forall k | n <= k :: Name(k) !in c.idToHash)
  }

  function TokenOf(k: nat): Option<Token> {
    Some(Token(Name(k), None, ""))
  }

  /** Token `k` is created and installed. */
  lemma Mint(l: Limits, ms: seq<Move>, w: World, k: nat) returns (ms': seq<Move>, w': World)
    requires 1 <= l.lruCap && w == Run(Empty, l, ms) && Idle(w, l)
    ensures w' == Run(Empty, l, ms') && Idle(w', l)
    ensures w'.cache == Installed(w.cache, l, Name(k), TokenOf(k), None, 0)
  {
    var m, e := StoreCreates(0, Name(k), TokenOf(k)), Positive(TokenOf(k), 0, FreshUntil(l, None, 0));
    RunOneMore(Empty, l, ms, m);
    ms', w' := ms + [m], Step(w, l, m);
    RunOneMore(Empty, l, ms', InstallCreated(0, None, 0));
    ms', w' := ms' + [InstallCreated(0, None, 0)], Step(w', l, InstallCreated(0, None, 0));
    PutFacts(w.cache.entries, Name(k), e, l.lruCap, Name(k));
    forall h | Find(w'.cache.entries, h).Some? ensures Definitive(Find(w'.cache.entries, h), l, l.positiveTTL).None? {
      PutFacts(w.cache.entries, Name(k), e, l.lruCap, h);
    }
  }

  lemma {:induction false} FillIndex(l: Limits, n: nat) returns (ms: seq<Move>, w: World)
    requires 1 <= l.lruCap && n <= l.indexCap
    ensures w == Run(Empty, l, ms) && Idle(w, l) && Indexed(w.cache, n)
  {
    if n == 0 {
      ms, w := [], Empty;
    } else {
      ms, w := FillIndex(l, n - 1);
      ms, w := Mint(l, ms, w, n - 1);
      assert Names(n) == Names(n - 1) + [Name(n - 1)];
    }
  }

  /** Token 0 is validated when its entry is no longer fresh. */
  lemma Revalidate(l: Limits, ms: seq<Move>, w: World) returns (ms': seq<Move>, w': World)
    requires 1 <= l.lruCap && w == Run(Empty, l, ms) && Idle(w, l)
    ensures w' == Run(Empty, l, ms') && w'.minting == map[]
    ensures w'.cache == Installed(w.cache, l, Name(0), TokenOf(0), None, l.positiveTTL)
  {
    var begin := Begin(0, true, Name(0), l.positiveTTL);
    RunOneMore(Empty, l, ms, begin);
    ms', w' := ms + [begin], Step(w, l, begin);
    RunOneMore(Empty, l, ms', Peek(0));
    ms', w' := ms' + [Peek(0)], Step(w', l, Peek(0));
    RunOneMore(Empty, l, ms', Ask(0, Vouch(TokenOf(0))));
    ms', w' := ms' + [Ask(0, Vouch(TokenOf(0)))], Step(w', l, Ask(0, Vouch(TokenOf(0))));
    RunOneMore(Empty, l, ms', Finish(0));
    ms', w' := ms' + [Finish(0)], Step(w', l, Finish(0));
  }

  lemma MintLast(l: Limits, ms: seq<Move>, w: World, k: nat) returns (ms': seq<Move>, w': World)
    requires w == Run(Empty, l, ms) && w.minting == map[]
    ensures w' == Run(Empty, l, ms') && w'.cache == Installed(w.cache, l, Name(k), TokenOf(k), None, 0)
  {
    RunOneMore(Empty, l, ms, StoreCreates(0, Name(k), TokenOf(k)));
    ms', w' := ms + [StoreCreates(0, Name(k), TokenOf(k))], Step(w, l, StoreCreates(0, Name(k), TokenOf(k)));
    RunOneMore(Empty, l, ms', InstallCreated(0, None, 0));
    ms', w' := ms' + [InstallCreated(0, None, 0)], Step(w', l, InstallCreated(0, None, 0));
  }

  /** Whatever the bound of the index: fill it, validate the first token once more so that its entry is
      recent, create one more token. The first id is gone from the index, its entry is not gone from
      the cache, and a deletion leaves it there. */
  lemma DroppedIdFallsOut(l: Limits) returns (ms: seq<Move>, w: World)
    requires 2 <= l.lruCap && 1 <= l.indexCap
    ensures w == Run(Empty, l, ms) && Name(0) !in w.cache.idToHash
    ensures HoldsId(w.cache.entries, Name(0)) && HoldsId(Dropped(w.cache, Name(0), true).entries, Name(0))
  {
    var n := l.indexCap;
    ms, w := FillIndex(l, n);
    var e := Positive(TokenOf(0), l.positiveTTL, FreshUntil(l, None, l.positiveTTL));
    PutFacts(w.cache.entries, Name(0), e, l.lruCap, Name(0));
    ms, w := Revalidate(l, ms, w);
    assert Indexed(w.cache, n);
    var before := w.cache.entries;
    assert before != [] && before[0] == (Name(0), e);
    ms, w := MintLast(l, ms, w, n);
    SecondStays(before, Name(n), Positive(TokenOf(n), 0, FreshUntil(l, None, 0)), l.lruCap);
    assert HoldsToken(w.cache.entries, Name(0), Name(0));
  }

  /** With room for two, the front entry survives a put of another key. */
  lemma SecondStays(s: seq<(string, Entry)>, k: string, e: Entry, cap: nat)
    requires Distinct(s) && s != [] && s[0].0 != k && 2 <= cap
    ensures Find(Put(s, k, e, cap), s[0].0) == Some(s[0].1)
  {
    var t := [(k, e)] + Removed(s, k);
    assert Removed(s, k)[0] == s[0];
    var p := Take(t, cap);
    assert p[0] == (k, e) && p[1] == s[0] && p[1..][0] == s[0];
  }
}
