/** CachedTokenStore as the source keeps it: the LRU, the reverse index and its queue, updated in
    place. Each method is proved against the section it models in TokenCache. */
module TokenStoreObject {
  import opened Options
  import opened Recency
  import opened LruCache
  import opened TokenCache

  class CachedTokenStore {
    const limits: Limits
    const entries: Lru<Entry>
    var idToHash: map<string, string>
    var idOrder: seq<string>

    ghost predicate Valid()
      reads this, entries
    {
      entries.Valid() && entries.cap == limits.lruCap
    }

    ghost function View(): Cache
      reads this, entries, entries.ll
    {
      Cache(entries.Contents(), idToHash, idOrder)
    }

    constructor (limits: Limits)
      requires 1 <= limits.lruCap
      ensures Valid() && View() == Empty.cache && this.limits == limits && fresh(entries)
    {
      this.limits := limits;
      entries := new Lru(limits.lruCap);
      idToHash, idOrder := map[], [];
    }

    /** rememberID. */
    method RememberId(id: string, hash: string)
      modifies this`idToHash, this`idOrder
      ensures (idToHash, idOrder) == IndexAfter(old(idToHash), old(idOrder), limits.indexCap, id, hash)
    {
      if id == "" {
        return;
      }
      if id !in idToHash {
        idOrder := idOrder + [id];
        if |idOrder| > limits.indexCap {
          var evict := idOrder[0];
          idOrder := idOrder[1..];
          idToHash := idToHash - {evict};
        }
      }
      idToHash := idToHash[id := hash];
    }

    method StorePositive(hash: string, token: Option<Token>, clamp: Option<int>, now: int)
      requires Valid()
      modifies this`idToHash, this`idOrder, entries, Elements(entries.ll)
      ensures Valid() && fresh(Elements(entries.ll) - old(Elements(entries.ll)))
      ensures View() == Installed(old(View()), limits, hash, token, clamp, now)
    {
      var freshUntil := now + limits.positiveTTL;
      if clamp.Some? && clamp.value < freshUntil {
        freshUntil := clamp.value;
      }
      PutEntry(hash, Positive(token, now, freshUntil));
      IndexToken(token, hash);
    }

    method IndexToken(token: Option<Token>, hash: string)
      modifies this`idToHash, this`idOrder
      ensures (idToHash, idOrder) == TokenIndexed(old(idToHash), old(idOrder), limits.indexCap, token, hash)
    {
      if token.Some? {
        RememberId(token.value.id, hash);
      }
    }

    method PutEntry(hash: string, e: Entry)
      requires Valid()
      modifies entries, Elements(entries.ll)
      ensures Valid() && fresh(Elements(entries.ll) - old(Elements(entries.ll)))
      ensures View() == old(View()).(entries := Recency.Put(old(View()).entries, hash, e, limits.lruCap))
      ensures idToHash == old(idToHash) && idOrder == old(idOrder)
    {
      entries.Put(hash, e);
    }

    method StoreNegative(hash: string, verdict: Verdict, now: int)
      requires Valid()
      modifies entries, Elements(entries.ll)
      ensures Valid() && fresh(Elements(entries.ll) - old(Elements(entries.ll)))
      ensures View() == Denied(old(View()), limits, hash, verdict, now)
    {
      PutEntry(hash, Negative(verdict, now));
    }

    method CachedVerdict(hash: string, now: int) returns (r: Option<Reply>)
      requires Valid()
      ensures r == Definitive(Find(View().entries, hash), limits, now)
    {
      var e := entries.Peek(hash);
      if e.None? {
        return None;
      }
      match e.value {
        case Positive(token, _, freshUntil) =>
          if now < freshUntil {
            return Some(Allow(token));
          }
        case Negative(verdict, cachedAt) =>
          if now - cachedAt <= limits.negativeTTL {
            return Some(Refuse(verdict));
          }
      }
      return None;
    }

    /** ValidateToken, uninterrupted; `answer` is what the inner store says if it is asked. */
    method ValidateToken(wellFormed: bool, hash: string, now: int, answer: StoreAnswer) returns (r: Reply)
      requires Valid()
      modifies this`idToHash, this`idOrder, entries, Elements(entries.ll)
      ensures Valid() && fresh(Elements(entries.ll) - old(Elements(entries.ll)))
      ensures (View(), r) == Validated(old(View()), limits, wellFormed, hash, now, answer)
    {
      if !wellFormed {
        return Refuse(BadFormat);
      }
      var cached := CachedVerdict(hash, now);
      if cached.Some? {
        return cached.value;
      }
      match answer {
        case Vouch(token) =>
          StorePositive(hash, token, if token.Some? then token.value.expiresAt else None, now);
          return Allow(token);
        case Deny(verdict) =>
          StoreNegative(hash, verdict, now);
          return Refuse(verdict);
        case Unreachable =>
          var e := entries.Peek(hash);
          if e.Some? && e.value.Positive? && e.value.token.Some? && now - e.value.cachedAt <= limits.staleCap {
            return Allow(e.value.token);
          }
          return Fail;
        case Unclassified =>
          return Fail;
      }
    }

    /** The section of DeleteToken (`forget`) and of UpdateTokenPermission, after the inner store agreed. */
    method DropToken(id: string, forget: bool)
      requires Valid()
      modifies this`idToHash, entries
      ensures Valid() && Elements(entries.ll) <= old(Elements(entries.ll))
      ensures View() == Dropped(old(View()), id, forget)
    {
      if id in idToHash {
        entries.Delete(idToHash[id]);
        if forget {
          idToHash := idToHash - {id};
        }
      }
    }
  }

  /** A whole validation as one function. */
  ghost function Validated(c: Cache, l: Limits, wellFormed: bool, hash: string, now: int,
                           answer: StoreAnswer): (Cache, Reply) {
    var cached := Definitive(Find(c.entries, hash), l, now);
    if !wellFormed then (c, Refuse(BadFormat))
    else if cached.Some? then (c, cached.value)
    else match answer
      case Vouch(token) => (Installed(c, l, hash, token, if token.Some? then token.value.expiresAt else None, now),
          Allow(token))
      case Deny(verdict) => (Denied(c, l, hash, verdict, now), Refuse(verdict))
      case Unreachable => (c, DegradedReply(Find(c.entries, hash), l, now))
      case Unclassified => (c, Fail)
  }

  /** The stale tier looks at the age of an entry, not at the token's own expiry: a token past its
      expiry is allowed exactly when the store vouches for it, or is unreachable within the cap. */
  lemma ExpiredTokenServedIff(c: Cache, l: Limits, hash: string, now: int, answer: StoreAnswer, token: Token, at: int)
    requires Find(c.entries, hash) == Some(Positive(Some(token), at, FreshUntil(l, token.expiresAt, at)))
    requires token.expiresAt.Some? && now >= token.expiresAt.value
    ensures Validated(c, l, true, hash, now, answer).1 == Allow(Some(token))
      <==> answer == Vouch(Some(token)) || (answer == Unreachable && now - at <= l.staleCap)
  {
  }

  /** It is what the call's three steps compute when nothing comes between them. */
  lemma ValidatedIsARun(w: World, l: Limits, i: nat, wellFormed: bool, hash: string, now: int, answer: StoreAnswer)
    requires i !in w.calls
    ensures var w' := Run(w, l, [Begin(i, wellFormed, hash, now), Peek(i), Ask(i, answer), Finish(i)]);
      && i in w'.calls && w'.calls[i].phase.Done?
      && (w'.cache, w'.calls[i].phase.reply) == Validated(w.cache, l, wellFormed, hash, now, answer)
  {
    var ms := [Begin(i, wellFormed, hash, now), Peek(i), Ask(i, answer), Finish(i)];
    assert ms[1..][0] == Peek(i) && ms[1..][1..][0] == Ask(i, answer) && ms[1..][1..][1..][0] == Finish(i);
    assert ms[1..][1..][1..][1..] == [];
    var w1 := Step(w, l, ms[0]);
    var w2 := if Fits(w1, Peek(i)) then Step(w1, l, Peek(i)) else w1;
    var w3 := if Fits(w2, Ask(i, answer)) then Step(w2, l, Ask(i, answer)) else w2;
    var w4 := if Fits(w3, Finish(i)) then Step(w3, l, Finish(i)) else w3;
    assert Run(w1, l, ms[1..]) == Run(w2, l, ms[1..][1..]) == Run(w3, l, ms[1..][1..][1..]) == Run(w4, l, []);
  }
}
