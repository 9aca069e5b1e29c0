/** When a revocation is final: a hash that was dropped or denied comes back from the cache without a
    new word of the store exactly when a call that the store answered before was still under way. */
module TokenRevocation {
  import opened Options
  import opened Recency
  import opened TokenCache
  import opened TokenProvenance

  /** The store vouched for the hash already and the cache has yet to install it. */
  ghost predicate Pending(w: World, h: string) {
    || (exists i :: StoringVouch(w, i, h))
    || (exists k :: k in w.minting && w.minting[k].hash == h)
  }

  ghost predicate StoringVouch(w: World, i: nat, h: string) {
    i in w.calls && w.calls[i].hash == h && w.calls[i].phase.Storing? && w.calls[i].phase.answer.Vouch?
  }

  /** The store gives its word for the hash in this move. */
  ghost predicate Vouches(w: World, m: Move, h: string)
    requires Fits(w, m)
  {
    || (m.Ask? && m.answer.Vouch? && w.calls[m.call].hash == h)
    || (m.StoreCreates? && m.hash == h)
  }

  ghost predicate NoNewVouch(w: World, l: Limits, ms: seq<Move>, h: string)
    decreases |ms|
  {
    ms != [] ==>
      if Fits(w, ms[0]) then !Vouches(w, ms[0], h) && NoNewVouch(Step(w, l, ms[0]), l, ms[1..], h)
      else NoNewVouch(w, l, ms[1..], h)
  }

  /** The last thing that happened to the hash in the cache is not an installation. */
  ghost predicate Refused(w: World, h: string) {
    Last(w.log, h).None? || !Last(w.log, h).value.Installs?
  }

  /** The validations of the hash that ended in an allow. */
  ghost function Allowed(w: World, h: string): set<nat> {
    set i | i in w.calls && w.calls[i].hash == h && w.calls[i].phase.Done? && w.calls[i].phase.reply.Allow?
  }

  // --------------------------------------------------------------------- final without one

  lemma RefusedHasNoToken(w: World, l: Limits, h: string)
    requires Inv(w, l) && Refused(w, h)
    ensures var e := Find(w.cache.entries, h); e.Some? ==> e.value.Negative?
  {
    var e := Find(w.cache.entries, h);
    if e.Some? {
      assert Matches(e.value, Last(w.log, h), l);
    }
  }

  /** The event a move adds to the log, if it adds one. */
  lemma LogGrows(w: World, l: Limits, m: Move)
    requires Fits(w, m)
    ensures var log := Step(w, l, m).log; log == w.log || log == w.log + [log[|w.log|]]
  {
  }

  lemma NoInstall(w: World, l: Limits, m: Move, h: string)
    requires !Pending(w, h) && Fits(w, m)
    ensures var log := Step(w, l, m).log;
      log != w.log ==> |log| > |w.log| && !(log[|w.log|].Installs? && log[|w.log|].hash == h)
  {
    if m.Finish? {
      assert !StoringVouch(w, m.call, h);
    }
  }

  lemma StaysRefused(w: World, l: Limits, m: Move, h: string)
    requires Refused(w, h) && !Pending(w, h) && Fits(w, m)
    ensures Refused(Step(w, l, m), h)
  {
    var log := Step(w, l, m).log;
    LogGrows(w, l, m);
    NoInstall(w, l, m, h);
    if log != w.log {
      LastAppend(w.log, log[|w.log|], h);
    }
  }

  lemma NothingPends(w: World, l: Limits, m: Move, h: string)
    requires !Pending(w, h) && Fits(w, m) && !Vouches(w, m, h)
    ensures !Pending(Step(w, l, m), h)
  {
    var w' := Step(w, l, m);
    forall j ensures !StoringVouch(w', j, h) {
      assert !StoringVouch(w, j, h);
    }
    assert forall k | k in w'.minting && w'.minting[k].hash == h :: k in w.minting && w.minting[k].hash == h;
  }

  lemma NothingAllowed(w: World, l: Limits, m: Move, h: string)
    requires Inv(w, l) && Refused(w, h) && !Pending(w, h) && Fits(w, m)
    ensures Allowed(Step(w, l, m), h) == Allowed(w, h)
  {
    RefusedHasNoToken(w, l, h);
    if m.Finish? {
      assert !StoringVouch(w, m.call, h);
    }
  }

  lemma {:induction false} NothingComesBack(w: World, l: Limits, ms: seq<Move>, h: string)
    requires Inv(w, l) && 1 <= l.lruCap && Refused(w, h) && !Pending(w, h) && NoNewVouch(w, l, ms, h)
    ensures Refused(Run(w, l, ms), h) && Allowed(Run(w, l, ms), h) == Allowed(w, h)
    decreases |ms|
  {
    if ms != [] {
      var m := ms[0];
      if Fits(w, m) {
        StepKeeps(w, l, m);
        StaysRefused(w, l, m, h);
        NothingPends(w, l, m, h);
        NothingAllowed(w, l, m, h);
      }
      NothingComesBack(if Fits(w, m) then Step(w, l, m) else w, l, ms[1..], h);
    }
  }

  // ------------------------------------------------------------------------- undone by one

  /** Above every element. */
  ghost function Above(s: set<nat>): nat {
    if s == {} then 0
    else
      var x :| x in s;
      var rest := Above(s - {x});
      if x < rest then rest else x + 1
  }

  lemma {:induction false} AboveFacts(s: set<nat>, y: nat)
    ensures y in s ==> y < Above(s)
  {
    if s != {} {
      var x :| x in s && Above(s) == (if x < Above(s - {x}) then Above(s - {x}) else x + 1);
      AboveFacts(s - {x}, y);
    }
  }

  /** The installation of what is pending. */
  lemma PendingInstalls(w: World, l: Limits, h: string) returns (m: Move)
    requires Pending(w, h) && 1 <= l.lruCap && Distinct(w.cache.entries)
    ensures Fits(w, m) && !Vouches(w, m, h) && (m.Finish? || m.InstallCreated?)
    ensures var e := Find(Step(w, l, m).cache.entries, h); e.Some? && e.value.Positive?
  {
    if i :| StoringVouch(w, i, h) {
      m := Finish(i);
      var token := w.calls[i].phase.answer.token;
      var clamp := if token.Some? then token.value.expiresAt else None;
      PutFacts(w.cache.entries, h, Positive(token, w.calls[i].now, FreshUntil(l, clamp, w.calls[i].now)), l.lruCap, h);
    } else {
      var k :| k in w.minting && w.minting[k].hash == h;
      m := InstallCreated(k, None, 0);
      PutFacts(w.cache.entries, h, Positive(w.minting[k].token, 0, FreshUntil(l, None, 0)), l.lruCap, h);
    }
  }

  /** A fresh validation is answered from a positive entry while it is fresh. */
  lemma PositiveAnswers(w: World, l: Limits, h: string, j: nat, now: int)
    requires j !in w.calls
    requires var e := Find(w.cache.entries, h); e.Some? && e.value.Positive? && now < e.value.freshUntil
    ensures var w' := Run(w, l, [Begin(j, true, h, now), Peek(j)]);
      j in Allowed(w', h) && w'.calls[j].phase.how == FromCache
    ensures NoNewVouch(w, l, [Begin(j, true, h, now), Peek(j)], h)
  {
    var ms := [Begin(j, true, h, now), Peek(j)];
    assert ms[1..][0] == Peek(j) && ms[1..][1..] == [];
    var w1 := Step(w, l, ms[0]);
    var w2 := Step(w1, l, Peek(j));
    assert Run(w1, l, ms[1..]) == Run(w2, l, []);
    assert NoNewVouch(w2, l, [], h);
  }

  /** While something is pending, the hash can be allowed from the cache again, with no new word of
      the store: the pending call installs it and the next validation finds it. */
  lemma PendingComesBack(w: World, l: Limits, h: string) returns (ms: seq<Move>, j: nat)
    requires Inv(w, l) && 1 <= l.lruCap && Pending(w, h)
    ensures NoNewVouch(w, l, ms, h) && j !in w.calls
    ensures j in Allowed(Run(w, l, ms), h) && Run(w, l, ms).calls[j].phase.how == FromCache
  {
    var m := PendingInstalls(w, l, h);
    var w1 := Step(w, l, m);
    j := Above(w.calls.Keys + w1.calls.Keys);
    AboveFacts(w.calls.Keys + w1.calls.Keys, j);
    var now := Find(w1.cache.entries, h).value.freshUntil - 1;
    PositiveAnswers(w1, l, h, j, now);
    var tail := [Begin(j, true, h, now), Peek(j)];
    ms := [m] + tail;
    assert ms[1..] == tail;
  }

  /** Exactly: a refusal holds, whatever else happens, until the store gives its word anew, if and only
      if no call that had the store's word already was under way when it was recorded. */
  lemma RefusalIsFinalIff(w: World, l: Limits, h: string)
    requires Inv(w, l) && 1 <= l.lruCap && Refused(w, h)
    ensures !Pending(w, h) <==> forall ms | NoNewVouch(w, l, ms, h) :: Allowed(Run(w, l, ms), h) == Allowed(w, h)
  {
    if Pending(w, h) {
      var ms, j := PendingComesBack(w, l, h);
      assert j !in Allowed(w, h);
    } else {
      forall ms | NoNewVouch(w, l, ms, h) ensures Allowed(Run(w, l, ms), h) == Allowed(w, h) {
        NothingComesBack(w, l, ms, h);
      }
    }
  }

  // ------------------------------------------------------------------------ how it happens

  lemma {:induction false} RunOneMore(w: World, l: Limits, ms: seq<Move>, m: Move)
    requires Fits(Run(w, l, ms), m)
    ensures Run(w, l, ms + [m]) == Step(Run(w, l, ms), l, m)
    decreases |ms|
  {
    if ms == [] {
      assert ([] + [m])[1..] == [];
    } else {
      assert (ms + [m])[1..] == ms[1..] + [m];
      RunOneMore(if Fits(w, ms[0]) then Step(w, l, ms[0]) else w, l, ms[1..], m);
    }
  }

  /** Two validations that missed, both with the store's word. */
  lemma TwoUnderWay(l: Limits, h: string, t: Token) returns (ms: seq<Move>, w: World)
    ensures w == Run(Empty, l, ms) && w.cache == Empty.cache && w.minting == map[]
    ensures w.calls == map[0 := Call(h, 0, Storing(Vouch(Some(t)))), 1 := Call(h, 0, Storing(Vouch(Some(t))))]
  {
    ms, w := [], Empty;
    var all := [Begin(0, true, h, 0), Peek(0), Ask(0, Vouch(Some(t))), Begin(1, true, h, 0), Peek(1),
        Ask(1, Vouch(Some(t)))];
    RunOneMore(Empty, l, ms, all[0]);
    ms, w := ms + [all[0]], Step(w, l, all[0]);
    RunOneMore(Empty, l, ms, all[1]);
    ms, w := ms + [all[1]], Step(w, l, all[1]);
    RunOneMore(Empty, l, ms, all[2]);
    ms, w := ms + [all[2]], Step(w, l, all[2]);
    RunOneMore(Empty, l, ms, all[3]);
    ms, w := ms + [all[3]], Step(w, l, all[3]);
    RunOneMore(Empty, l, ms, all[4]);
    ms, w := ms + [all[4]], Step(w, l, all[4]);
    RunOneMore(Empty, l, ms, all[5]);
    ms, w := ms + [all[5]], Step(w, l, all[5]);
  }

  /** It can be reached: of two validations in flight the first installs the token, a deletion drops
      it, and the second is still about to install it. */
  lemma DeletedTokenPends(l: Limits, h: string, t: Token) returns (ms: seq<Move>, w: World)
    requires 1 <= l.lruCap && 1 <= l.indexCap && t.id != ""
    ensures w == Run(Empty, l, ms) && ms != [] && ms[|ms| - 1] == Drop(t.id, true)
    ensures Last(w.log, h) == Some(Drops(h)) && Pending(w, h)
  {
    ms, w := TwoUnderWay(l, h, t);
    RunOneMore(Empty, l, ms, Finish(0));
    ms, w := ms + [Finish(0)], Step(w, l, Finish(0));
    assert w.cache.idToHash == map[t.id := h];
    assert StoringVouch(w, 1, h);
    RunOneMore(Empty, l, ms, Drop(t.id, true));
    LastAppend(w.log, Drops(h), h);
    ms, w := ms + [Drop(t.id, true)], Step(w, l, Drop(t.id, true));
    assert StoringVouch(w, 1, h);
  }
}
