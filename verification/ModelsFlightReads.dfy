/** Uninterrupted reads other than the client's: the sections of a read, one after the other, do what the
    whole operation does. */
module ModelsFlightReads {
  import opened Options
  import opened ModelsCache
  import opened ModelsFlightRuns
  import F = ModelsFlights

  /** A section in which the only thing that happens to the read and the cache is this. */
  lemma Moves(f: F.Flights, ttl: int, e: F.Event)
    requires e.Advance? && e.call in f.calls && !f.calls[e.call].phase.Done? && F.Fits(f, ttl, e)
    ensures var c, f1 := f.calls[e.call], Section(f, ttl, e);
      && e.call in f1.calls && f1.calls[e.call].req == c.req
      && f1.calls[e.call].phase == F.Next(f, ttl, c, e.now, e.answer)
      && f1.world == F.Effect(f.world, c, e.now, e.index)
  {
  }

  /** A read that knows what to install, or that the store is down or denies, and is no client's. */
  ghost predicate Told(f: F.Flights, e: F.Event) {
    && e.Advance? && e.call in f.calls && !f.calls[e.call].req.Client?
    && match f.calls[e.call].phase
         case Installing(row, _) => e.answer == Found(row)
         case MarkingDown => e.answer == Infra
         case Negating(_) => e.answer == NotFound
         case _ => false
  }

  ghost function Filling(c: Cache, req: F.Request, now: int, a: Answer, index: map<string, string>)
    : (Cache, Option<Row>)
  {
    match a
    case Found(row) => (Filled(c, row, index), Some(row))
    case NotFound =>
      (if req.Named? then c.(negNames := c.negNames[req.name := now]) else c.(neg := c.neg[req.id := now]), None)
    case Infra => (c.(healthy := false), None)
  }

  /** Two more sections end such a read: its effect, and the resolver's last look. */
  lemma ToldReadEnds(f: F.Flights, ttl: int, e: F.Event)
    requires Told(f, e) && F.Fits(f, ttl, e)
    requires var req := f.calls[e.call].req; req.Resolver? && !e.answer.Found? ==> req.id !in f.world.cache.rows
    ensures var (c, reply) := Filling(f.world.cache, f.calls[e.call].req, e.now, e.answer, e.index);
      Ended(Sections(f, ttl, e, 2), e.call, c, reply)
  {
    var (c, reply) := Filling(f.world.cache, f.calls[e.call].req, e.now, e.answer, e.index);
    Moves(f, ttl, e);
    var f1 := Section(f, ttl, e);
    assert f1.world.cache == c;
    if f1.calls[e.call].phase.Done? {
      EndedStays(f1, ttl, e, 1, c, reply);
    } else {
      Moves(f1, ttl, e);
      var f2 := Section(f1, ttl, e);
      assert Sections(f1, ttl, e, 1) == Sections(f2, ttl, e, 0);
    }
  }

  lemma AskingIsTold(f: F.Flights, ttl: int, e: F.Event)
    requires e.Advance? && e.call in f.calls && !f.calls[e.call].req.Client? && f.calls[e.call].phase.Asking?
    requires !f.calls[e.call].req.Named? && e.answer.Found? ==> e.answer.row.id == f.calls[e.call].req.id
    requires e.answer.Found? && e.answer.row.IsGroup() ==>
      ClaimIndex(Filled(f.world.cache, e.answer.row, e.index).rows, e.index)
    ensures var f1 := Section(f, ttl, e);
      Told(f1, e) && F.Fits(f1, ttl, e) && f1.world == f.world && f1.calls[e.call].req == f.calls[e.call].req
  {
    Moves(f, ttl, e);
  }

  /** The whole operation of a read that looks no claim up. */
  ghost function Whole(c: Cache, ttl: int, req: F.Request, now: int, a: Answer, index: map<string, string>)
    : (Cache, Option<Row>)
  {
    match req
    case Client(id) => GetModel(c, ttl, id, now, a, index)
    case Direct(id) => Native(c, ttl, id, now, a, index)
    case Resolver(id) => ResolveRow(c, ttl, id, now, a, index)
    case Named(name) => ByName(c, ttl, name, now, a, index)
  }

  ghost function OpOf(req: F.Request, now: int, a: Answer, index: map<string, string>): Op {
    match req
    case Client(id) => Get(id, now, a, index)
    case Direct(id) => GetNative(id, now, a, index)
    case Resolver(id) => Resolve(id, now, a, index)
    case Named(name) => GetByName(name, now, a, index)
  }

  /** Where the tiers miss, the operation is what the store's answer does. */
  lemma MissFills(c: Cache, ttl: int, req: F.Request, now: int, a: Answer, index: map<string, string>)
    requires !req.Client? && F.LookUp(c, ttl, req, now).Miss? && (req.Named? || req.id != "")
    ensures Whole(c, ttl, req, now, a, index) == Filling(c, req, now, a, index)
    ensures Asks(c, ttl, OpOf(req, now, a, index)) && (!req.Named? ==> req.id !in c.rows)
  {
  }

  /** A read that the tiers or an empty id decide: two sections end it. */
  lemma DecidedReadEnds(f: F.Flights, ttl: int, e: F.Event)
    requires e.Advance? && e.call in f.calls && !f.calls[e.call].req.Client? && f.calls[e.call].phase.Looking?
    requires !F.AfterLook(f, ttl, f.calls[e.call].req, e.now).Asking?
    ensures var (c, reply) := Whole(f.world.cache, ttl, f.calls[e.call].req, e.now, e.answer, e.index);
      Ended(Sections(f, ttl, e, 4), e.call, c, reply)
  {
    var (c, reply) := Whole(f.world.cache, ttl, f.calls[e.call].req, e.now, e.answer, e.index);
    Moves(f, ttl, e);
    var f1 := Section(f, ttl, e);
    if f1.calls[e.call].phase.Done? {
      assert Ended(f1, e.call, c, reply);
      EndedStays(f1, ttl, e, 3, c, reply);
    } else {
      Moves(f1, ttl, e);
      var f2 := Section(f1, ttl, e);
      assert Ended(f2, e.call, c, reply);
      EndedStays(f2, ttl, e, 2, c, reply);
      assert Sections(f1, ttl, e, 3) == Sections(f2, ttl, e, 2);
    }
  }

  lemma MissedReadEnds(f: F.Flights, ttl: int, e: F.Event)
    requires e.Advance? && e.call in f.calls && !f.calls[e.call].req.Client? && f.calls[e.call].phase.Looking?
    requires F.AfterLook(f, ttl, f.calls[e.call].req, e.now).Asking?
    requires Legal(f.world.cache, ttl, OpOf(f.calls[e.call].req, e.now, e.answer, e.index))
    ensures var (c, reply) := Whole(f.world.cache, ttl, f.calls[e.call].req, e.now, e.answer, e.index);
      Ended(Sections(f, ttl, e, 4), e.call, c, reply)
  {
    var req := f.calls[e.call].req;
    MissFills(f.world.cache, ttl, req, e.now, e.answer, e.index);
    Moves(f, ttl, e);
    var f1 := Section(f, ttl, e);
    AskingIsTold(f1, ttl, e);
    var f2 := Section(f1, ttl, e);
    ToldReadEnds(f2, ttl, e);
    assert Sections(f, ttl, e, 4) == Sections(f1, ttl, e, 3) == Sections(f2, ttl, e, 2);
  }

  /** A direct read, a resolver's or one by name, its sections one after the other, does what the whole
      operation does. */
  lemma UninterruptedReadIsWhole(f: F.Flights, ttl: int, i: nat, req: F.Request, now: int, a: Answer,
                                 index: map<string, string>)
    requires i !in f.calls && !req.Client? && Legal(f.world.cache, ttl, OpOf(req, now, a, index))
    ensures var (c, reply) := Whole(f.world.cache, ttl, req, now, a, index);
      Ended(Sections(F.Step(f, ttl, F.Begin(i, req)), ttl, F.Advance(i, now, a, index), 4), i, c, reply)
  {
    var f0, e := F.Step(f, ttl, F.Begin(i, req)), F.Advance(i, now, a, index);
    assert f0.world == f.world && f0.calls[i].req == req && f0.calls[i].phase == F.Looking;
    if F.AfterLook(f0, ttl, req, now).Asking? {
      MissedReadEnds(f0, ttl, e);
    } else {
      DecidedReadEnds(f0, ttl, e);
    }
  }
}
