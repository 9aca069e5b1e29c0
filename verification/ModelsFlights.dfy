/** Reads of the model cache as the source runs them: separate lock sections around a strict read that
    holds no lock, interleaved with each other, with writes and with a reconciler whose scan is read,
    judged and applied in three steps. What holds in every interleaving, whatever the store answers. */
module ModelsFlights {
  import opened Options
  import opened ModelsCache
  import opened ModelsSafety
  import opened ModelsTransparency

  datatype Request = Client(id: string) | Direct(id: string) | Resolver(id: string) | Named(name: string)

  /** Which section decided an answer: the claims before or after the strict read, the cached tiers,
      the store, an outage, or the resolver's last look at the rows. */
  datatype Path = AtClaims | AtLook | AtStore | AtRecheck | Down | LastLook

  /** Where a read is. `asked` is the store as it was when the read asked it; `at` is the store and
      `now` the time when the answer was decided. */
  datatype Phase =
    | Claims | Looking | Asking
    | Installing(row: Row, asked: Store)
    | MarkingDown
    | Rechecking(asked: Store)
    | Negating(asked: Store)
    | LookingAgain
    | Done(reply: Option<Row>, path: Path, at: Store, now: int)

  /** `first` is the store as it was when a client read looked at the claims. */
  datatype Call = Call(req: Request, phase: Phase, first: Store)

  /** A reconciler pass: its scan is read, then judged by what the cache lists, then applied. */
  datatype Pass = Unjudged(scan: Scan) | Believed(rows: seq<Row>, creds: map<string, string>) | Rejected

  /** `store` is what the store holds by the last write-through. */
  datatype Flights = Flights(store: Store, world: World, calls: map<nat, Call>, scans: map<nat, Pass>)

  datatype Event =
    | Begin(call: nat, req: Request)
    | Advance(call: nat, now: int, answer: Answer, index: map<string, string>)
    | Write(op: Op, after: Store)
    | ScanStart(scanId: nat, scan: Scan)
    | ScanJudge(scanId: nat)
    | ScanApply(scanId: nat, now: int, index: map<string, string>)

  // ---------------------------------------------------------------------------- sections

  ghost function Filling(w: World, row: Row, index: map<string, string>): World {
    w.(cache := Filled(w.cache, row, index))
  }

  ghost function Negated(w: World, req: Request, now: int): World {
    if req.Named? then w.(cache := w.cache.(negNames := w.cache.negNames[req.name := now]))
    else World(w.cache.(neg := w.cache.neg[req.id := now]), w.absent + {(req.id, now)})
  }

  /** The counts are compared under a lock of their own. */
  ghost function Judged(c: Cache, scan: Scan): Pass {
    if scan.Failed? || Suspicious(c, scan) then Rejected else Believed(scan.rows, scan.creds)
  }

  ghost function Applied(w: World, p: Pass, now: int, index: map<string, string>): World {
    match p
    case Believed(rows, creds) => w.(cache := Snapshot(rows, creds, now, index))
    case _ => w.(cache := w.cache.(healthy := false))
  }

  /** The cached tiers as a read finds them: a fresh denial, a row, or neither. */
  datatype Look = Denied | Hit(row: Row) | Miss

  ghost function LookUp(c: Cache, ttl: int, req: Request, now: int): Look {
    if req.Named? then
      if NegFresh(c.negNames, req.name, now, ttl) then Denied
      else if req.name in c.names && c.names[req.name] in c.rows then Hit(c.rows[c.names[req.name]])
      else Miss
    else if NegFresh(c.neg, req.id, now, ttl) then Denied
    else if req.id in c.rows then Hit(c.rows[req.id])
    else Miss
  }

  /** A read that ends without a row; the resolver looks at the rows once more. */
  ghost function Nothing(req: Request, path: Path, at: Store, now: int): Phase {
    if req.Resolver? then LookingAgain else Done(None, path, at, now)
  }

  ghost function AfterLook(f: Flights, ttl: int, req: Request, now: int): Phase {
    if req.Direct? && req.id == "" then Done(None, AtLook, f.store, now)
    else
      match LookUp(f.world.cache, ttl, req, now)
      case Denied => Nothing(req, AtLook, f.store, now)
      case Hit(row) => Done(Some(row), AtLook, f.store, now)
      case Miss => if req.Resolver? && req.id == "" then LookingAgain else Asking
  }

  ghost function AfterAnswer(req: Request, a: Answer, s: Store): Phase {
    match a
    case Found(row) => Installing(row, s)
    case NotFound => if req.Client? then Rechecking(s) else Negating(s)
    case Infra => MarkingDown
  }

  /** The next phase of a read. */
  ghost function Next(f: Flights, ttl: int, c: Call, now: int, a: Answer): Phase {
    var cache := f.world.cache;
    match c.phase
    case Claims =>
      if c.req.Client? && Redirect(cache, c.req.id).Some?
          then Done(Redirect(cache, c.req.id), AtClaims, f.store, now) else Looking
    case Looking => AfterLook(f, ttl, c.req, now)
    case Asking => AfterAnswer(c.req, a, f.store)
    case Installing(row, asked) => Done(Some(row), AtStore, asked, now)
    case MarkingDown => Nothing(c.req, Down, f.store, now)
    case Rechecking(asked) =>
      if c.req.Client? && Redirect(cache, c.req.id).Some? then Done(Redirect(cache, c.req.id), AtRecheck, f.store, now)
      else Negating(asked)
    case Negating(asked) => Nothing(c.req, AtStore, asked, now)
    case LookingAgain =>
      Done(if !c.req.Named? && c.req.id in cache.rows then Some(cache.rows[c.req.id]) else None, LastLook, f.store, now)
    case Done(_, _, _, _) => c.phase
  }

  /** What a section of a read does to the cache. */
  ghost function Effect(w: World, c: Call, now: int, index: map<string, string>): World {
    match c.phase
    case Installing(row, _) => Filling(w, row, index)
    case MarkingDown => w.(cache := w.cache.(healthy := false))
    case Negating(_) => Negated(w, c.req, now)
    case _ => w
  }

  ghost predicate IsWrite(op: Op) {
    op.Add? || op.Update? || op.Remove?
  }

  /** The store answers a read by id with the row of that id and lists each id once, and a rebuild
      yields an index of the rows it leaves. Nothing else is asked of it. */
  ghost predicate Fits(f: Flights, ttl: int, e: Event) {
    match e
    case Begin(i, _) => i !in f.calls
    case Advance(i, _, a, index) =>
      && i in f.calls && !f.calls[i].phase.Done?
      && (f.calls[i].phase.Asking? && !f.calls[i].req.Named? && a.Found? ==> a.row.id == f.calls[i].req.id)
      && (f.calls[i].phase.Installing? && f.calls[i].phase.row.IsGroup() ==>
            ClaimIndex(Filling(f.world, f.calls[i].phase.row, index).cache.rows, index))
    case Write(op, _) => IsWrite(op) && Legal(f.world.cache, ttl, op)
    case ScanStart(k, scan) => k !in f.scans && (scan.Scanned? ==> OneRowPerId(scan.rows))
    case ScanJudge(k) => k in f.scans && f.scans[k].Unjudged?
    case ScanApply(k, _, index) =>
      && k in f.scans && !f.scans[k].Unjudged?
      && (f.scans[k].Believed? ==> ClaimIndex(ById(f.scans[k].rows), index))
  }

  ghost function Step(f: Flights, ttl: int, e: Event): Flights
    requires Fits(f, ttl, e)
  {
    match e
    case Begin(i, req) => f.(calls := f.calls[i := Call(req, if req.Client? then Claims else Looking, f.store)])
    case Advance(i, now, a, index) =>
      var c := f.calls[i];
      var first := if c.phase.Claims? then f.store else c.first;
      f.(world := Effect(f.world, c, now, index), calls := f.calls[i := Call(c.req, Next(f, ttl, c, now, a), first)])
    case Write(op, after) => f.(store := after, world := ModelsCache.Step(f.world, ttl, op))
    case ScanStart(k, scan) => f.(scans := f.scans[k := Unjudged(scan)])
    case ScanJudge(k) => f.(scans := f.scans[k := Judged(f.world.cache, f.scans[k].scan)])
    case ScanApply(k, now, index) =>
      f.(world := Applied(f.world, f.scans[k], now, index), scans := f.scans - {k})
  }

  ghost function Run(f: Flights, ttl: int, es: seq<Event>): Flights
    decreases |es|
  {
    if es == [] then f else Run(if Fits(f, ttl, es[0]) then Step(f, ttl, es[0]) else f, ttl, es[1..])
  }

  // ------------------------------------------------------------- in every interleaving

  ghost predicate ClaimsId(g: Row, id: string) {
    g.IsGroup() && g.enabled && g.shadow == id != g.id
  }

  /** What a read knows of itself: the row it is about to install is the row of the id it asked for,
      an answer by direct id has that id, a client's answer has it or is an enabled group that claims it,
      and an answer of nothing was denied by the store, no longer than the negative TTL before it was
      given, unless an outage decided it. */
  ghost predicate CallInv(c: Call, absent: set<(string, int)>, ttl: int) {
    match c.phase
    case Installing(row, _) => !c.req.Named? ==> row.id == c.req.id
    case LookingAgain => c.req.Resolver?
    case Done(reply, path, _, now) =>
      && (reply.Some? && (c.req.Direct? || c.req.Resolver?) ==> reply.value.id == c.req.id)
      && (reply.Some? && c.req.Client? ==>
            if path == AtClaims || path == AtRecheck then ClaimsId(reply.value, c.req.id)
            else reply.value.id == c.req.id)
      && (reply.None? && (c.req.Client? || c.req.Direct?) && c.req.id != "" && path != Down ==>
            DeniedWithin(absent, c.req.id, now, ttl))
    case _ => true
  }

  ghost predicate FlightInv(f: Flights, ttl: int) {
    && Base(f.world)
    && (forall i | i in f.calls :: CallInv(f.calls[i], f.world.absent, ttl))
    && ScansFit(f)
  }

  /** No scan lists an id twice. */
  ghost predicate ScansFit(f: Flights) {
    forall k | k in f.scans :: match f.scans[k]
      case Unjudged(scan) => scan.Scanned? ==> OneRowPerId(scan.rows)
      case Believed(rows, _) => OneRowPerId(rows)
      case Rejected => true
  }

  lemma EffectKeepsBase(w: World, c: Call, now: int, index: map<string, string>)
    requires Base(w)
    requires c.phase.Installing? && c.phase.row.IsGroup() ==>
        ClaimIndex(Filling(w, c.phase.row, index).cache.rows, index)
    ensures Base(Effect(w, c, now, index)) && w.absent <= Effect(w, c, now, index).absent
  {
    match c.phase {
      case Installing(row, _) => FillKeeps(w, row, index, w.absent);
      case Negating(_) =>
        if !c.req.Named? {
          NegativeKeeps(w, c.req.id, now);
        }
      case _ =>
    }
  }

  lemma NextIsExplained(f: Flights, ttl: int, c: Call, now: int, a: Answer, index: map<string, string>)
    requires Base(f.world) && ttl >= 0 && CallInv(c, f.world.absent, ttl)
    requires c.phase.Asking? && !c.req.Named? && a.Found? ==> a.row.id == c.req.id
    ensures CallInv(c.(phase := Next(f, ttl, c, now, a)), Effect(f.world, c, now, index).absent, ttl)
  {
    match c.phase {
      case Looking =>
        if !c.req.Named? && LookUp(f.world.cache, ttl, c.req, now).Denied? {
          assert (c.req.id, f.world.cache.neg[c.req.id]) in f.world.absent;
        }
      case Negating(_) =>
        if !c.req.Named? {
          assert (c.req.id, now) in Effect(f.world, c, now, index).absent;
        }
      case _ =>
    }
  }

  lemma MoreAbsentKeeps(c: Call, absent: set<(string, int)>, absent': set<(string, int)>, ttl: int)
    requires CallInv(c, absent, ttl) && absent <= absent'
    ensures CallInv(c, absent', ttl)
  {
    if c.phase.Done? && !c.req.Named? && DeniedWithin(absent, c.req.id, c.phase.now, ttl) {
      var at :| (c.req.id, at) in absent && c.phase.now - at <= ttl;
      assert (c.req.id, at) in absent';
    }
  }

  lemma AdvanceKeeps(f: Flights, ttl: int, e: Event)
    requires FlightInv(f, ttl) && ttl >= 0 && Fits(f, ttl, e) && e.Advance?
    ensures FlightInv(Step(f, ttl, e), ttl)
  {
    var f', c := Step(f, ttl, e), f.calls[e.call];
    assert CallInv(c, f.world.absent, ttl);
    EffectKeepsBase(f.world, c, e.now, e.index);
    NextIsExplained(f, ttl, c, e.now, e.answer, e.index);
    forall i | i in f'.calls ensures CallInv(f'.calls[i], f'.world.absent, ttl) {
      if i != e.call {
        MoreAbsentKeeps(f.calls[i], f.world.absent, f'.world.absent, ttl);
      }
    }
  }

  lemma ApplyKeeps(f: Flights, k: nat, now: int, index: map<string, string>)
    requires Base(f.world) && ScansFit(f) && k in f.scans
    requires f.scans[k].Believed? ==> ClaimIndex(ById(f.scans[k].rows), index)
    ensures var w' := Applied(f.world, f.scans[k], now, index);
      Base(w') && w'.absent == f.world.absent && (Disjoint(f.world.cache) ==> Disjoint(w'.cache))
  {
    if f.scans[k].Believed? {
      SwapKeeps(f.world, f.scans[k].rows, f.scans[k].creds, now, index);
    }
  }

  lemma StepKeeps(f: Flights, ttl: int, e: Event)
    requires FlightInv(f, ttl) && ttl >= 0 && Fits(f, ttl, e)
    ensures FlightInv(Step(f, ttl, e), ttl)
  {
    match e {
      case Begin(_, _) =>
      case Advance(_, _, _, _) => AdvanceKeeps(f, ttl, e);
      case Write(op, _) => WriteKeeps(f.world, ttl, op);
      case ScanStart(_, _) =>
      case ScanJudge(_) =>
      case ScanApply(k, now, index) => ApplyKeeps(f, k, now, index);
    }
  }

  /** In every interleaving of reads, writes and reconciler passes, whatever the store answers: rows are
      cached under their own ids, the list snapshot equals the rows, an indexed enabled group claims
      what it is indexed under, negatives are denials of the store; direct reads never yield a row of
      another id, and no outage is read as not-found. */
  lemma {:induction false} RunKeeps(f: Flights, ttl: int, es: seq<Event>)
    requires FlightInv(f, ttl) && ttl >= 0
    ensures FlightInv(Run(f, ttl, es), ttl)
    decreases |es|
  {
    if es != [] {
      if Fits(f, ttl, es[0]) {
        StepKeeps(f, ttl, es[0]);
      }
      RunKeeps(if Fits(f, ttl, es[0]) then Step(f, ttl, es[0]) else f, ttl, es[1..]);
    }
  }

  /** A section that notes a denial of an id whose row was cached in the meantime. */
  ghost predicate HidesRow(f: Flights, e: Event) {
    && e.Advance? && e.call in f.calls && f.calls[e.call].phase.Negating?
    && !f.calls[e.call].req.Named? && f.calls[e.call].req.id in f.world.cache.rows
  }

  /** The tiers stay disjoint exactly in the steps that do not note a denial beside a live row. */
  lemma TiersKeptIff(f: Flights, ttl: int, e: Event)
    requires FlightInv(f, ttl) && Fits(f, ttl, e) && Disjoint(f.world.cache)
    ensures Disjoint(Step(f, ttl, e).world.cache) <==> !HidesRow(f, e)
  {
    match e {
      case Begin(_, _) =>
      case Advance(i, now, _, index) =>
        var c := f.calls[i];
        if c.phase.Installing? {
          FillKeeps(f.world, c.phase.row, index, f.world.absent);
        } else if c.phase.Negating? && !c.req.Named? {
          NegativeKeeps(f.world, c.req.id, now);
        }
      case Write(op, _) => WriteKeeps(f.world, ttl, op);
      case ScanStart(_, _) =>
      case ScanJudge(_) =>
      case ScanApply(k, now, index) => ApplyKeeps(f, k, now, index);
    }
  }
}
