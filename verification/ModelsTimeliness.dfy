/** When interleaved reads of the model cache agree with the store: the cache stays coherent exactly in
    the steps that install what still holds. A write counts as done when its write-through runs. */
module ModelsTimeliness {
  import opened Options
  import opened ModelsCache
  import opened ModelsSafety
  import opened ModelsTransparency
  import F = ModelsFlights

  // ----------------------------------------------------------- the exact condition of a step

  /** The store holds this row, now. */
  ghost predicate Holds(s: Store, row: Row) {
    row.id in s && s[row.id] == row
  }

  /** The scan lists stored rows only, and all stored groups. */
  ghost predicate ScanHolds(s: Store, list: seq<Row>) {
    && (forall id | id in ById(list) :: Holds(s, ById(list)[id]))
    && (forall g | g in s && s[g].IsGroup() :: g in ById(list))
  }

  /** What the step installs, if it installs something, is still what the store holds. */
  ghost predicate Timely(f: F.Flights, e: F.Event) {
    match e
    case Advance(i, _, _, _) =>
      i in f.calls ==>
        (match f.calls[i].phase
         case Installing(row, _) => Holds(f.store, row)
         case Negating(_) => f.calls[i].req.Named? || f.calls[i].req.id !in f.store
         case _ => true)
    case ScanApply(k, _, _) =>
      k in f.scans && f.scans[k].Believed? ==> ScanHolds(f.store, f.scans[k].rows)
    case _ => true
  }

  /** A plain row that the store holds replaces no claimant. */
  lemma TrueFillUpsetsNothing(s: Store, w: World, row: Row)
    requires Coherent(s, w) && Holds(s, row) && !row.IsGroup()
    ensures !Contested(w.cache, row.id)
  {
    var c := w.cache;
    if Contested(c, row.id) {
      var id, h :| id in c.claims && c.claims[id] == row.id && h != row.id && Claimant(c.rows, h, id);
      assert Claimed(c.rows, id);
    }
  }

  lemma FillCoherentIff(s: Store, w: World, row: Row, index: map<string, string>)
    requires Coherent(s, w) && (row.IsGroup() ==> ClaimIndex(F.Filling(w, row, index).cache.rows, index))
    ensures Coherent(s, F.Filling(w, row, index)) <==> Holds(s, row)
  {
    var w' := F.Filling(w, row, index);
    FillKeeps(w, row, index, w.absent);
    if Holds(s, row) {
      if row.IsGroup() {
        IndexIsComplete(w'.cache.rows, index);
      } else {
        TrueFillUpsetsNothing(s, w, row);
        PlainFillComplete(w.cache, row, index);
      }
    } else {
      assert row.id in w'.cache.rows && w'.cache.rows[row.id] == row;
    }
  }

  lemma NegativeCoherentIff(s: Store, w: World, id: string, now: int)
    requires Coherent(s, w)
    ensures Coherent(s, World(w.cache.(neg := w.cache.neg[id := now]), w.absent + {(id, now)})) <==> id !in s
  {
    NegativeKeeps(w, id, now);
    assert id in w.cache.neg[id := now];
  }

  lemma ScanCoherentIff(s: Store, w: World, p: F.Pass, now: int, index: map<string, string>)
    requires Coherent(s, w) && (p.Believed? ==> OneRowPerId(p.rows) && ClaimIndex(ById(p.rows), index))
    ensures Coherent(s, F.Applied(w, p, now, index)) <==> (p.Believed? ==> ScanHolds(s, p.rows))
  {
    if p.Believed? {
      SwapKeeps(w, p.rows, p.creds, now, index);
      IndexIsComplete(ById(p.rows), index);
    } else {
      SameClaims(w.cache, F.Applied(w, p, now, index).cache);
    }
  }

  lemma ReadCoherentIffTimely(f: F.Flights, ttl: int, e: F.Event)
    requires Coherent(f.store, f.world) && F.Fits(f, ttl, e) && e.Advance?
    ensures Coherent(f.store, F.Effect(f.world, f.calls[e.call], e.now, e.index)) <==> Timely(f, e)
  {
    var c := f.calls[e.call];
    if c.phase.Installing? {
      FillCoherentIff(f.store, f.world, c.phase.row, e.index);
    } else if c.phase.Negating? && !c.req.Named? {
      NegativeCoherentIff(f.store, f.world, c.req.id, e.now);
    }
  }

  /** A step of a read or of the reconciler keeps the cache coherent exactly when it is timely. */
  lemma CoherentIffTimely(f: F.Flights, ttl: int, e: F.Event)
    requires Coherent(f.store, f.world) && F.ScansFit(f) && F.Fits(f, ttl, e) && !e.Write?
    ensures Coherent(f.store, F.Step(f, ttl, e).world) <==> Timely(f, e)
  {
    match e {
      case Begin(_, _) =>
      case ScanStart(_, _) =>
      case ScanJudge(_) =>
      case Advance(_, _, _, _) => ReadCoherentIffTimely(f, ttl, e);
      case ScanApply(k, now, index) => ScanCoherentIff(f.store, f.world, f.scans[k], now, index);
    }
  }

  // ------------------------------------------------------------------ answers in a timely run

  ghost function StoreAnswer(s: Store, id: string): Answer {
    if id in s then Found(s[id]) else NotFound
  }

  ghost predicate Unnamed(s: Store, name: string) {
    forall id | id in s :: s[id].name != name
  }

  ghost predicate NameAnswer(s: Store, name: string, a: Answer) {
    (a.Found? ==> Holds(s, a.row) && a.row.name == name) && (a.NotFound? ==> Unnamed(s, name))
  }

  /** The store answers what it holds at the moment it is asked, or cannot be reached; a write leaves
      the store as it says and releases and claims no id that is a group afterwards. */
  ghost predicate TruthfulEvent(f: F.Flights, e: F.Event) {
    match e
    case Advance(i, _, a, _) =>
      i in f.calls && f.calls[i].phase.Asking? ==>
        || a == Infra
        || (f.calls[i].req.Named? && NameAnswer(f.store, f.calls[i].req.name, a))
        || (!f.calls[i].req.Named? && a == StoreAnswer(f.store, f.calls[i].req.id))
    case Write(op, after) => after == StoreAfter(f.store, op) && Truthful(f.store, op)
    case _ => true
  }

  /** The answer of a read, said of the moments at which its sections ran. Where the claims decided, it
      is the manager's answer at that moment. Where the tiers or the store decided, it is the stored
      row at that moment, and for a client the id was unclaimed when it looked at the claims first.
      The resolver's last look yields stored rows only. */
  ghost predicate AnswerExact(c: F.Call, reply: Option<Row>, path: F.Path, at: Store) {
    if c.req.Named? || (c.req.Direct? && c.req.id == "") then true
    else match path
      case AtClaims => Claimed(at, c.req.id) && reply == ManagerRow(at, c.req.id)
      case AtRecheck => Claimed(at, c.req.id) && reply == ManagerRow(at, c.req.id)
      case AtLook => reply == StoredRow(at, c.req.id) && (c.req.Client? ==> !Claimed(c.first, c.req.id))
      case AtStore => reply == StoredRow(at, c.req.id) && (c.req.Client? ==> !Claimed(c.first, c.req.id))
      case Down => reply.None?
      case LastLook => reply.Some? ==> reply == StoredRow(at, c.req.id)
  }

  /** A read by name yields a stored row, one of that name if the store was asked, and a denial of the
      store means that there was none. The name index is the subject of ModelsNames. */
  ghost predicate NameExact(name: string, ph: F.Phase) {
    match ph
    case Installing(row, asked) => Holds(asked, row) && row.name == name
    case Rechecking(asked) => Unnamed(asked, name)
    case Negating(asked) => Unnamed(asked, name)
    case LookingAgain => false
    case Done(reply, path, at, _) =>
      && (reply.Some? ==> Holds(at, reply.value) && (path.AtStore? ==> reply.value.name == name))
      && (reply.None? && path.AtStore? ==> Unnamed(at, name))
    case _ => true
  }

  ghost predicate CallExact(c: F.Call) {
    if c.req.Named? then NameExact(c.req.name, c.phase) else (match c.phase
      case Claims => true
      case MarkingDown => true
      case LookingAgain => true
      case Looking => c.req.Client? ==> !Claimed(c.first, c.req.id)
      case Asking => c.req.Client? ==> !Claimed(c.first, c.req.id)
      case Installing(row, asked) =>
        StoredRow(asked, c.req.id) == Some(row) && (c.req.Client? ==> !Claimed(c.first, c.req.id))
      case Rechecking(asked) => c.req.id !in asked && (c.req.Client? ==> !Claimed(c.first, c.req.id))
      case Negating(asked) => c.req.id !in asked && (c.req.Client? ==> !Claimed(c.first, c.req.id))
      case Done(reply, path, at, _) => AnswerExact(c, reply, path, at))
  }

  ghost predicate ExactInv(f: F.Flights) {
    Coherent(f.store, f.world) && F.ScansFit(f) && forall i | i in f.calls :: CallExact(f.calls[i])
  }

  /** On a coherent cache the redirect is the manager's. */
  lemma RedirectIsManagers(s: Store, w: World, id: string)
    requires Coherent(s, w) && Orderly(s)
    ensures Redirect(w.cache, id).Some? <==> Claimed(s, id)
    ensures Claimed(s, id) ==> Redirect(w.cache, id) == ManagerRow(s, id)
  {
    var c := w.cache;
    if Claimed(s, id) {
      var g :| Claimant(s, g, id);
      ClaimantsAgree(s, w, g, id);
      assert Claimed(c.rows, id);
      ClaimantsAgree(s, w, c.claims[id], id);
    } else if Redirect(c, id).Some? {
      ClaimantsAgree(s, w, c.claims[id], id);
      assert Claimed(s, id);
    }
  }

  /** On a coherent cache the tiers are the store's. */
  lemma LookIsStores(s: Store, w: World, ttl: int, req: F.Request, now: int)
    requires Coherent(s, w) && !req.Named?
    ensures match F.LookUp(w.cache, ttl, req, now)
      case Denied => req.id !in s
      case Hit(row) => StoredRow(s, req.id) == Some(row)
      case Miss => true
  {
  }

  ghost predicate NextExact(f: F.Flights, ttl: int, c: F.Call, now: int, a: Answer) {
    CallExact(F.Call(c.req, F.Next(f, ttl, c, now, a), if c.phase.Claims? then f.store else c.first))
  }

  lemma ClaimsAreExact(f: F.Flights, ttl: int, c: F.Call, now: int, a: Answer)
    requires Coherent(f.store, f.world) && Orderly(f.store) && CallExact(c) && (c.phase.Claims? || c.phase.Rechecking?)
    ensures NextExact(f, ttl, c, now, a)
  {
    if c.req.Client? {
      RedirectIsManagers(f.store, f.world, c.req.id);
    }
  }

  lemma LooksAreExact(f: F.Flights, ttl: int, c: F.Call, now: int, a: Answer)
    requires Coherent(f.store, f.world) && CallExact(c) && (c.phase.Looking? || c.phase.LookingAgain?)
    ensures NextExact(f, ttl, c, now, a)
  {
    if !c.req.Named? {
      LookIsStores(f.store, f.world, ttl, c.req, now);
    }
  }

  lemma NamedIsExact(f: F.Flights, ttl: int, c: F.Call, now: int, a: Answer)
    requires Coherent(f.store, f.world) && CallExact(c) && c.req.Named?
    requires c.phase.Asking? ==> a == Infra || NameAnswer(f.store, c.req.name, a)
    ensures NextExact(f, ttl, c, now, a)
  {
  }

  lemma NextIsExact(f: F.Flights, ttl: int, c: F.Call, now: int, a: Answer)
    requires Coherent(f.store, f.world) && Orderly(f.store) && CallExact(c)
    requires c.phase.Asking? && !c.req.Named? ==>
      a == Infra || a == StoreAnswer(f.store, c.req.id)
    requires c.phase.Asking? && c.req.Named? ==> a == Infra || NameAnswer(f.store, c.req.name, a)
    ensures NextExact(f, ttl, c, now, a)
  {
    if c.req.Named? {
      NamedIsExact(f, ttl, c, now, a);
    } else if c.phase.Claims? || c.phase.Rechecking? {
      ClaimsAreExact(f, ttl, c, now, a);
    } else if c.phase.Looking? || c.phase.LookingAgain? {
      LooksAreExact(f, ttl, c, now, a);
    }
  }

  lemma WriteIsCoherent(f: F.Flights, ttl: int, e: F.Event)
    requires Coherent(f.store, f.world) && Orderly(f.store) && F.Fits(f, ttl, e) && e.Write?
    requires TruthfulEvent(f, e) && Orderly(F.Step(f, ttl, e).store)
    ensures Coherent(F.Step(f, ttl, e).store, F.Step(f, ttl, e).world)
  {
    StepIsCoherent(f.store, f.world, ttl, e.op);
  }

  lemma StepIsExact(f: F.Flights, ttl: int, e: F.Event)
    requires ExactInv(f) && Orderly(f.store) && F.Fits(f, ttl, e) && TruthfulEvent(f, e) && Timely(f, e)
    requires Orderly(F.Step(f, ttl, e).store)
    ensures ExactInv(F.Step(f, ttl, e))
  {
    var f' := F.Step(f, ttl, e);
    if e.Write? {
      WriteIsCoherent(f, ttl, e);
    } else {
      CoherentIffTimely(f, ttl, e);
    }
    if e.Advance? {
      NextIsExact(f, ttl, f.calls[e.call], e.now, e.answer);
    }
    forall i | i in f'.calls ensures CallExact(f'.calls[i]) {
    }
  }

  /** Every event is timely, on a truthful store that stays orderly. */
  ghost predicate TimelyRun(f: F.Flights, ttl: int, es: seq<F.Event>)
    decreases |es|
  {
    Orderly(f.store) && (es != [] ==>
      F.Fits(f, ttl, es[0]) && TruthfulEvent(f, es[0]) && Timely(f, es[0])
          && TimelyRun(F.Step(f, ttl, es[0]), ttl, es[1..]))
  }

  /** In every timely interleaving the cache is coherent throughout and every read that finishes
      answers what the store held at the moments its sections ran. */
  lemma {:induction false} TimelyReadsAreExact(f: F.Flights, ttl: int, es: seq<F.Event>)
    requires ExactInv(f) && TimelyRun(f, ttl, es)
    ensures ExactInv(F.Run(f, ttl, es))
    decreases |es|
  {
    if es != [] {
      assert TimelyRun(F.Step(f, ttl, es[0]), ttl, es[1..]);
      StepIsExact(f, ttl, es[0]);
      TimelyReadsAreExact(F.Step(f, ttl, es[0]), ttl, es[1..]);
    }
  }

  /** Priming from the store starts such a run, and a run of ModelsFlights. */
  lemma PrimedIsExact(list: seq<Row>, creds: map<string, string>, now: int, index: map<string, string>, ttl: int)
    requires OneRowPerId(list) && ClaimIndex(ById(list), index)
    ensures var f := F.Flights(ById(list), World(Snapshot(list, creds, now, index), {}), map[], map[]);
      ExactInv(f) && F.FlightInv(f, ttl)
  {
    PrimedIsCoherent(list, creds, now, index);
  }
}
