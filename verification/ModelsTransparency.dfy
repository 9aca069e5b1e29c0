/** The cache against the store it decorates, in runs of whole operations: while all writes go through
    the decorator, every read answers exactly as the uncached manager would, unless the store must be
    asked and cannot be reached. Interleaved sections are in ModelsTimeliness. */
module ModelsTransparency {
  import opened Options
  import opened ModelsCache
  import opened ModelsSafety

  type Store = map<string, Row>

  /** What the validators keep of the stored rows: a group claims another id, at most one enabled
      group claims an id, and no claimed id is itself a group. */
  ghost predicate Orderly(s: Store) {
    && Keyed(s)
    && (forall g | g in s && s[g].IsGroup() && s[g].shadow != "" ::
        s[g].shadow != g && (s[g].shadow in s ==> !s[s[g].shadow].IsGroup()))
    && (forall g, h, id | Claimant(s, g, id) && Claimant(s, h, id) :: g == h)
  }

  /** The uncached manager: claims first, then the row. */
  ghost function ManagerRow(s: Store, id: string): Option<Row> {
    if Claimed(s, id) then
      var g :| Claimant(s, g, id);
      Some(s[g])
    else StoredRow(s, id)
  }

  function StoredRow(s: Store, id: string): Option<Row> {
    if id in s then Some(s[id]) else None
  }

  ghost function StoreAfter(s: Store, op: Op): Store {
    match op
    case Add(row, _) => s[row.id := row]
    case Update(id, row, _) => (s - {id})[row.id := row]
    case Remove(id, _) => s - {id}
    case _ => s
  }

  /** The store answers what it holds or cannot be reached; an update releases and claims
      no id that is a group afterwards. */
  ghost predicate Truthful(s: Store, op: Op) {
    match op
    case GetByName(_, _, a, _) => a.Found? ==> a.row.id in s && s[a.row.id] == a.row
    case Reconcile(scan, _, _) => scan.Scanned? ==> ById(scan.rows) == s
    case Update(id, row, _) => forall x | x in EvictedByUpdate(s, id, row) && x in StoreAfter(s, op) ::
        !StoreAfter(s, op)[x].IsGroup()
    case Add(_, _) => true
    case Remove(_, _) => true
    case _ => op.answer == Infra || op.answer == if op.id in s then Found(s[op.id]) else NotFound
  }

  /** Cached rows are stored rows, cached denials are absences, and every stored group is cached. */
  ghost predicate Coherent(s: Store, w: World) {
    && Inv(w) && ClaimsComplete(w.cache)
    && (forall id | id in w.cache.rows :: id in s && s[id] == w.cache.rows[id])
    && (forall id | id in w.cache.neg :: id !in s)
    && (forall g | g in s && s[g].IsGroup() :: g in w.cache.rows)
  }

  lemma ClaimantsAgree(s: Store, w: World, g: string, id: string)
    requires Coherent(s, w)
    ensures Claimant(s, g, id) <==> Claimant(w.cache.rows, g, id)
  {
  }

  lemma ReadsAreCoherent(s: Store, w: World, ttl: int, op: Op)
    requires Coherent(s, w) && Orderly(s) && Legal(w.cache, ttl, op) && Truthful(s, op)
    requires op.Get? || op.GetNative? || op.Resolve? || op.GetByName?
    ensures Coherent(s, Step(w, ttl, op))
  {
    ReadEffect(w.cache, ttl, op);
    ReadKeeps(w, ttl, op);
    NoUpset(s, w, ttl, op);
    ClaimsKeptIff(w, ttl, op);
  }

  /** A truthful store cannot turn a cached group into a plain model behind the cache's back. */
  lemma NoUpset(s: Store, w: World, ttl: int, op: Op)
    requires Coherent(s, w) && Legal(w.cache, ttl, op) && Truthful(s, op)
    ensures !Upsets(w.cache, ttl, op)
  {
    if Upsets(w.cache, ttl, op) {
      var c, row := w.cache, op.answer.row;
      var id, h :| id in c.claims && c.claims[id] == row.id && h != row.id && Claimant(c.rows, h, id);
      assert Claimed(c.rows, id);
    }
  }

  lemma AddIsCoherent(s: Store, w: World, ttl: int, op: Op)
    requires Coherent(s, w) && Orderly(StoreAfter(s, op)) && Legal(w.cache, ttl, op) && op.Add?
    ensures Coherent(StoreAfter(s, op), Step(w, ttl, op))
  {
    WriteKeeps(w, ttl, op);
    ClaimsKeptIff(w, ttl, op);
    var s' := StoreAfter(s, op);
    assert s'[op.row.id] == op.row;
  }

  lemma UpdateIsCoherent(s: Store, w: World, ttl: int, op: Op)
    requires Coherent(s, w) && Orderly(s) && Orderly(StoreAfter(s, op)) && Legal(w.cache, ttl, op) && op.Update?
    requires Truthful(s, op)
    ensures Coherent(StoreAfter(s, op), Step(w, ttl, op))
  {
    WriteKeeps(w, ttl, op);
    ClaimsKeptIff(w, ttl, op);
    assert ShadowOf(w.cache.rows, op.id) == ShadowOf(s, op.id);
  }

  lemma RemoveIsCoherent(s: Store, w: World, ttl: int, op: Op)
    requires Coherent(s, w) && Orderly(s) && Legal(w.cache, ttl, op) && op.Remove?
    ensures Coherent(StoreAfter(s, op), Step(w, ttl, op))
  {
    WriteKeeps(w, ttl, op);
    ClaimsKeptIff(w, ttl, op);
  }

  lemma StepIsCoherent(s: Store, w: World, ttl: int, op: Op)
    requires Coherent(s, w) && Orderly(s) && Orderly(StoreAfter(s, op)) && Legal(w.cache, ttl, op) && Truthful(s, op)
    ensures Coherent(StoreAfter(s, op), Step(w, ttl, op))
  {
    match op {
      case Add(_, _) => AddIsCoherent(s, w, ttl, op);
      case Update(_, _, _) => UpdateIsCoherent(s, w, ttl, op);
      case Remove(_, _) => RemoveIsCoherent(s, w, ttl, op);
      case Reconcile(_, _, _) =>
        ReconcileKeeps(w, ttl, op);
        ClaimsKeptIff(w, ttl, op);
      case _ => ReadsAreCoherent(s, w, ttl, op);
    }
  }

  /** One read: what the uncached manager answers, or nothing and unhealthy when the store had to be
      asked and was out of reach. */
  ghost predicate Exact(s: Store, w: World, ttl: int, op: Op) {
    var (c', r) := Do(w.cache, ttl, op);
    match op
    case Get(id, _, a, _) =>
      if Asks(w.cache, ttl, op) && a.Infra? then r.None? && !c'.healthy else r == ManagerRow(s, id)
    case GetNative(id, _, a, _) =>
      if Asks(w.cache, ttl, op) && a.Infra? then r.None? && !c'.healthy else id != "" ==> r == StoredRow(s, id)
    case Resolve(id, _, a, _) =>
      if Asks(w.cache, ttl, op) && a.Infra? then r.None? && !c'.healthy else id != "" ==> r == StoredRow(s, id)
    case _ => true
  }

  lemma ClientReadIsExact(s: Store, w: World, ttl: int, op: Op)
    requires Coherent(s, w) && Orderly(s) && Legal(w.cache, ttl, op) && Truthful(s, op) && op.Get?
    ensures Exact(s, w, ttl, op)
  {
    var c := w.cache;
    if Claimed(s, op.id) {
      var g :| Claimant(s, g, op.id);
      ClaimantsAgree(s, w, g, op.id);
      assert Claimed(c.rows, op.id);
      ClaimantsAgree(s, w, c.claims[op.id], op.id);
    } else if Redirect(c, op.id).Some? {
      ClaimantsAgree(s, w, c.claims[op.id], op.id);
      assert Claimed(s, op.id);
    }
  }

  lemma ReadIsExact(s: Store, w: World, ttl: int, op: Op)
    requires Coherent(s, w) && Orderly(s) && Legal(w.cache, ttl, op) && Truthful(s, op)
    ensures Exact(s, w, ttl, op)
  {
    if op.Get? {
      ClientReadIsExact(s, w, ttl, op);
    }
  }

  /** A run on a truthful store that stays orderly. */
  ghost predicate FaithfulRun(s: Store, w: World, ttl: int, ops: seq<Op>)
    decreases |ops|
  {
    Orderly(s) && (ops != [] ==>
      Legal(w.cache, ttl, ops[0]) && Truthful(s, ops[0])
          && FaithfulRun(StoreAfter(s, ops[0]), Step(w, ttl, ops[0]), ttl, ops[1..]))
  }

  ghost predicate ExactRun(s: Store, w: World, ttl: int, ops: seq<Op>)
    decreases |ops|
  {
    ops != [] ==> Exact(s, w, ttl, ops[0]) && ExactRun(StoreAfter(s, ops[0]), Step(w, ttl, ops[0]), ttl, ops[1..])
  }

  /** The cache is invisible: in every run of whole operations, through any number of reads, writes, evictions, negative
      entries, outages and reconciler passes, each read answers as the manager itself would. */
  lemma {:induction false} CacheIsTransparent(s: Store, w: World, ttl: int, ops: seq<Op>)
    requires Coherent(s, w) && FaithfulRun(s, w, ttl, ops)
    ensures ExactRun(s, w, ttl, ops)
    decreases |ops|
  {
    if ops != [] {
      ReadIsExact(s, w, ttl, ops[0]);
      StepIsCoherent(s, w, ttl, ops[0]);
      CacheIsTransparent(StoreAfter(s, ops[0]), Step(w, ttl, ops[0]), ttl, ops[1..]);
    }
  }

  /** Priming from the store starts such a run. */
  lemma PrimedIsCoherent(list: seq<Row>, creds: map<string, string>, now: int, index: map<string, string>)
    requires OneRowPerId(list) && ClaimIndex(ById(list), index)
    ensures Coherent(ById(list), World(Snapshot(list, creds, now, index), {}))
  {
    ByIdFacts(list);
    IndexIsComplete(ById(list), index);
  }
}
