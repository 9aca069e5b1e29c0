/** Particular interleavings of the model cache: what an untimely install does, and that an
    uninterrupted read is the read of ModelsCache. */
module ModelsFlightRuns {
  import opened Options
  import opened ModelsCache
  import opened ModelsSafety
  import opened ModelsTransparency
  import opened ModelsTimeliness
  import opened ModelsFlightClaims
  import F = ModelsFlights

  lemma {:induction false} RunOneMore(f: F.Flights, ttl: int, es: seq<F.Event>, e: F.Event)
    requires F.Fits(F.Run(f, ttl, es), ttl, e)
    ensures F.Run(f, ttl, es + [e]) == F.Step(F.Run(f, ttl, es), ttl, e)
    decreases |es|
  {
    if es == [] {
      assert ([] + [e])[1..] == [];
    } else {
      assert (es + [e])[1..] == es[1..] + [e];
      RunOneMore(if F.Fits(f, ttl, es[0]) then F.Step(f, ttl, es[0]) else f, ttl, es[1..], e);
    }
  }

  /** One more event of a run. */
  lemma Then(f0: F.Flights, ttl: int, es: seq<F.Event>, f: F.Flights, e: F.Event)
    returns (es': seq<F.Event>, f': F.Flights)
    requires f == F.Run(f0, ttl, es) && F.Fits(f, ttl, e)
    ensures es' == es + [e] && f' == F.Run(f0, ttl, es') == F.Step(f, ttl, e)
  {
    RunOneMore(f0, ttl, es, e);
    es', f' := es + [e], F.Step(f, ttl, e);
  }

  // ------------------------------------------------------------------ untimely installs

  /** Priming an empty store. */
  const Start := F.Flights(map[], World(Cache(map[], map[], map[], map[], map[], {}, map[], true, 0), {}), map[], map[])

  const Plain := Row("a", "a", Chat, true, "", "1")

  lemma StartIsExact()
    ensures ExactInv(Start) && Primed(Start.world) && Orderly(Start.store)
  {
    assert OneRowPerId([]) && ClaimIndex(ById([]), map[]);
    assert Start.world.cache == Snapshot([], map[], 0, map[]);
    PrimedIsCoherent([], map[], 0, map[]);
  }

  /** A section of the only read that leaves the cache alone. */
  lemma OneMoves(f0: F.Flights, ttl: int, es: seq<F.Event>, f: F.Flights, a: Answer, ph: F.Phase)
    returns (es': seq<F.Event>, f': F.Flights)
    requires f == F.Run(f0, ttl, es) && f.calls.Keys == {0} && F.Fits(f, ttl, F.Advance(0, 0, a, map[]))
    requires F.Next(f, ttl, f.calls[0], 0, a) == ph && F.Effect(f.world, f.calls[0], 0, map[]) == f.world
    ensures f' == F.Run(f0, ttl, es') && f'.world == f.world && f'.store == f.store && f'.scans == f.scans
    ensures f'.calls
        == map[0 := F.Call(f.calls[0].req, ph, if f.calls[0].phase.Claims? then f.store else f.calls[0].first)]
  {
    es', f' := Then(f0, ttl, es, f, F.Advance(0, 0, a, map[]));
  }

  /** A client read of "a" missed and asks the store. */
  lemma AboutToAsk(ttl: int) returns (es: seq<F.Event>, f: F.Flights)
    ensures f == F.Run(Start, ttl, es) && f.world == Start.world && f.store == map[] && f.scans == map[]
    ensures f.calls == map[0 := F.Call(F.Client("a"), F.Asking, map[])]
  {
    es, f := Then(Start, ttl, [], Start, F.Begin(0, F.Client("a")));
    es, f := OneMoves(Start, ttl, es, f, NotFound, F.Looking);
    es, f := OneMoves(Start, ttl, es, f, NotFound, F.Asking);
  }

  /** It was denied by the store and is about to note it. */
  lemma AboutToNegate(ttl: int) returns (es: seq<F.Event>, f: F.Flights)
    ensures f == F.Run(Start, ttl, es) && f.world == Start.world && f.store == map[] && f.scans == map[]
    ensures f.calls == map[0 := F.Call(F.Client("a"), F.Negating(map[]), map[])]
  {
    es, f := AboutToAsk(ttl);
    es, f := OneMoves(Start, ttl, es, f, NotFound, F.Rechecking(map[]));
    es, f := OneMoves(Start, ttl, es, f, NotFound, F.Negating(map[]));
  }

  lemma AddPlain(c: Cache)
    requires c == Start.world.cache
    ensures var c' := Added(c, Plain, map[]);
      c'.rows == map["a" := Plain] && c'.neg == map[] && c'.claims == map[] && c'.healthy && ClaimIndex(c'.rows, map[])
  {
  }

  /** The row is added before the denial is noted. */
  lemma RowBesideDenial(ttl: int) returns (es: seq<F.Event>, f: F.Flights)
    ensures f == F.Run(Start, ttl, es) && f.store == map["a" := Plain] && f.calls.Keys == {0}
    ensures f.world.cache.rows == map["a" := Plain] && f.world.cache.neg == map["a" := 0]
    ensures f.world.cache.claims == map[] && f.world.cache.healthy
  {
    es, f := AboutToNegate(ttl);
    AddPlain(f.world.cache);
    es, f := Then(Start, ttl, es, f, F.Write(Add(Plain, map[]), map["a" := Plain]));
    es, f := Then(Start, ttl, es, f, F.Advance(0, 0, NotFound, map[]));
  }

  /** A denied fill in flight beside an addition: the denial is noted next to the live row and hides it,
      from a healthy cache, for the negative TTL. */
  lemma DenialHidesRow(ttl: int) returns (es: seq<F.Event>)
    requires ttl >= 0
    ensures ExactInv(Start)
    ensures var f := F.Run(Start, ttl, es);
      && "a" in f.store && "a" in f.world.cache.rows && f.world.cache.healthy && !Disjoint(f.world.cache)
      && 1 in f.calls && f.calls[1].req == F.Client("a") && f.calls[1].phase.Done? && f.calls[1].phase.reply.None?
      && f.calls[1].phase.at == f.store
  {
    var f;
    es, f := RowBesideDenial(ttl);
    es, f := Then(Start, ttl, es, f, F.Begin(1, F.Client("a")));
    es, f := Then(Start, ttl, es, f, F.Advance(1, 0, Infra, map[]));
    es, f := Then(Start, ttl, es, f, F.Advance(1, 0, Infra, map[]));
    assert ExactInv(Start) by {
      StartIsExact();
    }
    assert "a" in f.world.cache.neg.Keys && "a" in f.world.cache.rows.Keys;
  }

  /** Another program added the row to the store; the cache has not read it yet. */
  const Behind := Start.(store := map["a" := Plain])

  /** A direct read has found the row and has yet to install it. */
  lemma FoundInFlight(ttl: int) returns (es: seq<F.Event>, f: F.Flights)
    ensures f == F.Run(Behind, ttl, es) && f.world == Start.world && f.store == Behind.store && f.scans == map[]
    ensures f.calls.Keys == {0} && f.calls[0].req == F.Direct("a")
    ensures f.calls[0].phase == F.Installing(Plain, Behind.store)
  {
    es, f := Then(Behind, ttl, [], Behind, F.Begin(0, F.Direct("a")));
    es, f := OneMoves(Behind, ttl, es, f, Infra, F.Asking);
    es, f := OneMoves(Behind, ttl, es, f, Found(Plain), F.Installing(Plain, Behind.store));
  }

  /** A found fill in flight beside an update: the old row is installed over the new one. */
  lemma FillUndoesUpdate(ttl: int) returns (es: seq<F.Event>)
    ensures var f := F.Run(Behind, ttl, es);
      && f.store == map["a" := Plain.(body := "2")] && "a" in f.world.cache.rows && f.world.cache.rows["a"] == Plain
  {
    var f;
    es, f := FoundInFlight(ttl);
    var newer := Plain.(body := "2");
    assert Updated(f.world.cache, "a", newer, map[]).rows == map["a" := newer];
    es, f := Then(Behind, ttl, es, f, F.Write(Update("a", newer, map[]), map["a" := newer]));
    es, f := Then(Behind, ttl, es, f, F.Advance(0, 0, Infra, map[]));
  }

  const Shadow := Row("h", "h", Group, true, "a", "")
  const Member := Row("g", "g", Chat, true, "", "")
  const Claiming := Row("g", "g", Group, true, "a", "")

  /** The store holds a group that claims "a" and a model; the cache was primed before the model was
      added by another program. */
  const Contest := F.Flights(map["h" := Shadow, "g" := Member],
    World(Snapshot([Shadow], map[], 0, map["a" := "h"]), {}), map[], map[])

  lemma ContestStarts(ttl: int)
    ensures F.FlightInv(Contest, ttl) && Primed(Contest.world) && ClaimsComplete(Contest.world.cache)
    ensures var c := Contest.world.cache;
      c.rows == map["h" := Shadow] && c.neg == map[] && c.claims == map["a" := "h"] && c.names == map["h" := "h"]
  {
    assert [Shadow][..0] == [] && ById([]) == map[] && ByNames([]) == map[];
    assert ById([Shadow]) == map["h" := Shadow] && ByNames([Shadow]) == map["h" := "h"];
    assert OneRowPerId([Shadow]) && ClaimIndex(ById([Shadow]), map["a" := "h"]);
    PrimedIsInv(Contest.world);
    IndexIsComplete(Contest.world.cache.rows, Contest.world.cache.claims);
  }

  /** A direct read has found the model and has yet to install it. */
  lemma MemberInFlight(ttl: int) returns (es: seq<F.Event>, f: F.Flights)
    ensures f == F.Run(Contest, ttl, es) && f.world == Contest.world
    ensures f.calls == map[0 := F.Call(F.Direct("g"), F.Installing(Member, Contest.store), Contest.store)]
  {
    ContestStarts(ttl);
    es, f := Then(Contest, ttl, [], Contest, F.Begin(0, F.Direct("g")));
    es, f := OneMoves(Contest, ttl, es, f, Infra, F.Asking);
    es, f := OneMoves(Contest, ttl, es, f, Found(Member), F.Installing(Member, Contest.store));
  }

  lemma ClaimingWrite(c: Cache)
    requires c == Contest.world.cache && c.rows == map["h" := Shadow]
    ensures var c' := Updated(c, "g", Claiming, map["a" := "g"]);
      && c'.rows == map["h" := Shadow, "g" := Claiming] && c'.claims == map["a" := "g"]
      && ClaimIndex(c'.rows, c'.claims)
  {
  }

  /** Meanwhile the model becomes a second group that claims "a", and the rebuild indexes that one. */
  lemma SecondClaimIndexed(ttl: int) returns (es: seq<F.Event>, f: F.Flights)
    ensures f == F.Run(Contest, ttl, es) && f.calls.Keys == {0} && f.calls[0].req == F.Direct("g")
    ensures f.calls[0].phase == F.Installing(Member, Contest.store)
    ensures f.world.cache.rows == map["h" := Shadow, "g" := Claiming] && f.world.cache.claims == map["a" := "g"]
    ensures ClaimsComplete(f.world.cache)
  {
    ContestStarts(ttl);
    es, f := MemberInFlight(ttl);
    ClaimingWrite(f.world.cache);
    var op := Update("g", Claiming, map["a" := "g"]);
    es, f := Then(Contest, ttl, es, f, F.Write(op, map["h" := Shadow, "g" := Claiming]));
    IndexIsComplete(f.world.cache.rows, f.world.cache.claims);
  }

  lemma PlainOverClaimant(c: Cache)
    requires c.rows == map["h" := Shadow, "g" := Claiming] && c.claims == map["a" := "g"]
    ensures var c' := Filled(c, Member, map[]);
      Contested(c, "g") && Claimed(c'.rows, "a") && Redirect(c', "a").None?
  {
    assert Claimant(c.rows, "h", "a");
    assert Claimant(Filled(c, Member, map[]).rows, "h", "a");
  }

  /** A claim is lost by a direct read in flight, no read by name: the fill installs the plain row over the
      indexed group. Clients of "a" are redirected no more, although a claimant is cached. */
  lemma DirectFillLosesClaim(ttl: int) returns (es: seq<F.Event>, e: F.Event)
    ensures F.FlightInv(Contest, ttl) && Primed(Contest.world) && ClaimsComplete(Contest.world.cache)
    ensures var f := F.Run(Contest, ttl, es);
      && F.Fits(f, ttl, e) && Upset(f, e) && f.calls[e.call].req == F.Direct("g")
      && ClaimsComplete(f.world.cache)
      && Claimed(F.Step(f, ttl, e).world.cache.rows, "a") && Redirect(F.Step(f, ttl, e).world.cache, "a").None?
  {
    var f;
    es, f := SecondClaimIndexed(ttl);
    ContestStarts(ttl);
    e := F.Advance(0, 0, Infra, map[]);
    PlainOverClaimant(f.world.cache);
  }

  /** An empty scan is believed while the cache lists nothing, and a model is added. */
  lemma AddedAfterJudgement(ttl: int) returns (es: seq<F.Event>, f: F.Flights)
    ensures f == F.Run(Start, ttl, es) && f.store == map["a" := Plain] && f.world.cache.snap == {Plain}
    ensures f.scans == map[0 := F.Believed([], map[])]
  {
    assert OneRowPerId([]);
    es, f := Then(Start, ttl, [], Start, F.ScanStart(0, Scanned([], map[])));
    es, f := Then(Start, ttl, es, f, F.ScanJudge(0));
    AddPlain(f.world.cache);
    es, f := Then(Start, ttl, es, f, F.Write(Add(Plain, map[]), map["a" := Plain]));
  }

  /** The guard against empty scans judges too early: the scan is applied after the addition, and the
      list of models is empty although the store holds one. */
  lemma BelievedScanEmptiesCache(ttl: int) returns (es: seq<F.Event>, e: F.Event)
    ensures ExactInv(Start)
    ensures var f := F.Run(Start, ttl, es);
      && F.Fits(f, ttl, e) && e.ScanApply? && f.world.cache.snap == {Plain} && f.store == map["a" := Plain]
      && F.Step(f, ttl, e).world.cache.snap == {} && F.Step(f, ttl, e).store == f.store
  {
    var f;
    StartIsExact();
    es, f := AddedAfterJudgement(ttl);
    e := F.ScanApply(0, 0, map[]);
    assert ById([]) == map[];
  }

  // ------------------------------------------------------------------ uninterrupted reads

  /** The next section of a read, if it has one. */
  ghost function Section(f: F.Flights, ttl: int, e: F.Event): F.Flights {
    if F.Fits(f, ttl, e) then F.Step(f, ttl, e) else f
  }

  ghost function Sections(f: F.Flights, ttl: int, e: F.Event, n: nat): F.Flights
    decreases n
  {
    if n == 0 then f else Sections(Section(f, ttl, e), ttl, e, n - 1)
  }

  /** The read is over, with this cache and this answer. */
  ghost predicate Ended(f: F.Flights, i: nat, c: Cache, reply: Option<Row>) {
    i in f.calls && f.calls[i].phase.Done? && f.calls[i].phase.reply == reply && f.world.cache == c
  }

  lemma {:induction false} EndedStays(f: F.Flights, ttl: int, e: F.Event, n: nat, c: Cache, reply: Option<Row>)
    requires e.Advance? && Ended(f, e.call, c, reply)
    ensures Ended(Sections(f, ttl, e, n), e.call, c, reply)
    decreases n
  {
    if n > 0 {
      EndedStays(f, ttl, e, n - 1, c, reply);
    }
  }

  /** A read that asks the store: three more sections end it as Fill says. */
  lemma AskedReadFills(f: F.Flights, ttl: int, e: F.Event)
    requires e.Advance? && e.call in f.calls && f.calls[e.call].req.Client? && f.calls[e.call].phase.Asking?
    requires var id := f.calls[e.call].req.id;
      && Redirect(f.world.cache, id).None? && (e.answer.Found? ==> e.answer.row.id == id)
      && (e.answer.Found? && e.answer.row.IsGroup() ==>
          ClaimIndex(Filled(f.world.cache, e.answer.row, e.index).rows, e.index))
    ensures var (c, reply) := Fill(f.world.cache, f.calls[e.call].req.id, e.now, e.answer, e.index);
      Ended(Sections(f, ttl, e, 3), e.call, c, reply)
  {
    var (c, reply) := Fill(f.world.cache, f.calls[e.call].req.id, e.now, e.answer, e.index);
    var f1 := Section(f, ttl, e);
    var f2 := Section(f1, ttl, e);
    if e.answer.NotFound? {
      var f3 := Section(f2, ttl, e);
      assert Ended(f3, e.call, c, reply);
      assert Sections(f, ttl, e, 3) == Sections(f3, ttl, e, 0);
    } else {
      assert Ended(f2, e.call, c, reply);
      EndedStays(f2, ttl, e, 1, c, reply);
    }
  }

  /** A client read at its look that no claim answers: four sections end it. */
  lemma LookedReadEnds(f: F.Flights, ttl: int, e: F.Event)
    requires e.Advance? && e.call in f.calls && f.calls[e.call].req.Client? && f.calls[e.call].phase.Looking?
    requires var id := f.calls[e.call].req.id;
      Redirect(f.world.cache, id).None? && Legal(f.world.cache, ttl, Get(id, e.now, e.answer, e.index))
    ensures var (c, reply) := GetModel(f.world.cache, ttl, f.calls[e.call].req.id, e.now, e.answer, e.index);
      Ended(Sections(f, ttl, e, 4), e.call, c, reply)
  {
    var req := f.calls[e.call].req;
    var (c, reply) := GetModel(f.world.cache, ttl, req.id, e.now, e.answer, e.index);
    var f1 := Section(f, ttl, e);
    if F.LookUp(f.world.cache, ttl, req, e.now).Miss? {
      AskedReadFills(f1, ttl, e);
    } else {
      EndedStays(f1, ttl, e, 3, c, reply);
    }
  }

  /** A client read whose sections run one after the other does what GetModel does. */
  lemma UninterruptedReadIsGetModel(f: F.Flights, ttl: int, i: nat, id: string, now: int, a: Answer,
                                    index: map<string, string>)
    requires i !in f.calls && Legal(f.world.cache, ttl, Get(id, now, a, index))
    ensures var (c, reply) := GetModel(f.world.cache, ttl, id, now, a, index);
      Ended(Sections(F.Step(f, ttl, F.Begin(i, F.Client(id))), ttl, F.Advance(i, now, a, index), 5), i, c, reply)
  {
    var e, f0 := F.Advance(i, now, a, index), F.Step(f, ttl, F.Begin(i, F.Client(id)));
    var (c, reply) := GetModel(f.world.cache, ttl, id, now, a, index);
    var f1 := Section(f0, ttl, e);
    if Redirect(f.world.cache, id).Some? {
      EndedStays(f1, ttl, e, 4, c, reply);
    } else {
      LookedReadEnds(f1, ttl, e);
    }
  }
}
