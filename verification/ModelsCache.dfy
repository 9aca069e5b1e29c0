/** The model cache decorator (pkg/modelscache/models.go) as whole operations over its state. The
    store behind it is an oracle; the claim index that a rebuild yields is any index that fits the
    rows, since the rebuild walks a map in no particular order. */
module ModelsCache {
  import opened Options

  /** `shadow` is the model id a group claims; `body` stands for the fields no lookup reads. */
  datatype Row = Row(id: string, name: string, kind: Kind, enabled: bool, shadow: string, body: string) {
    predicate IsGroup() {
      kind == Group
    }
  }

  /** Chat covers the empty legacy kind; Other covers image generation and decision models. */
  datatype Kind = Chat | Group | Other

  datatype Answer = Found(row: Row) | NotFound | Infra

  /** The reconciler's three strict reads. */
  datatype Scan = Failed | Scanned(rows: seq<Row>, creds: map<string, string>)

  datatype Cache = Cache(
    rows: map<string, Row>,
    names: map<string, string>,
    neg: map<string, int>,
    negNames: map<string, int>,
    creds: map<string, string>,
    snap: set<Row>,
    claims: map<string, string>,
    healthy: bool,
    lastRefresh: int)

  // -------------------------------------------------------------------------- claims

  /** `g` is a cached enabled group that claims `id`. */
  ghost predicate Claimant(rows: map<string, Row>, g: string, id: string) {
    g in rows && rows[g].IsGroup() && rows[g].enabled && rows[g].shadow == id && id != "" && id != g
  }

  /** What rebuildClaimsLocked yields: a claimant for every claimed id, and nothing else. */
  ghost predicate ClaimIndex(rows: map<string, Row>, claims: map<string, string>) {
    && (forall id | id in claims :: Claimant(rows, claims[id], id))
    && (forall g | g in rows && Claimant(rows, g, rows[g].shadow) :: rows[g].shadow in claims)
  }

  function Redirect(c: Cache, id: string): Option<Row> {
    if id in c.claims && c.claims[id] in c.rows && c.rows[c.claims[id]].enabled && c.rows[c.claims[id]].IsGroup()
    then Some(c.rows[c.claims[id]]) else None
  }

  // --------------------------------------------------------------------------- reads

  predicate NegFresh(neg: map<string, int>, key: string, now: int, ttl: int) {
    key in neg && now - neg[key] <= ttl
  }

  /** cacheModel: only a group row entering the cache rebuilds the index. */
  function Filled(c: Cache, row: Row, index: map<string, string>): Cache {
    var rows := c.rows[row.id := row];
    c.(rows := rows, names := c.names[row.name := row.id], neg := c.neg - {row.id}, negNames := c.negNames - {row.name},
       snap := rows.Values, claims := if row.IsGroup() then index else c.claims)
  }

  /** A read by direct id: fresh negative, hit, or one strict read. */
  function Native(c: Cache, ttl: int, id: string, now: int, a: Answer, index: map<string, string>)
    : (Cache, Option<Row>)
  {
    if id == "" || NegFresh(c.neg, id, now, ttl) then (c, None)
    else if id in c.rows then (c, Some(c.rows[id]))
    else Fill(c, id, now, a, index)
  }

  function Fill(c: Cache, id: string, now: int, a: Answer, index: map<string, string>): (Cache, Option<Row>) {
    match a
    case Found(row) => (Filled(c, row, index), Some(row))
    case NotFound => (c.(neg := c.neg[id := now]), None)
    case Infra => (c.(healthy := false), None)
  }

  /** The client-facing read: claims first. */
  function GetModel(c: Cache, ttl: int, id: string, now: int, a: Answer, index: map<string, string>)
    : (Cache, Option<Row>)
  {
    if Redirect(c, id).Some? then (c, Redirect(c, id))
    else if NegFresh(c.neg, id, now, ttl) then (c, None)
    else if id in c.rows then (c, Some(c.rows[id]))
    else Fill(c, id, now, a, index)
  }

  /** The row lookup of ResolveInternalConfigWithAffinity: it looks again after a failed fill. */
  function ResolveRow(c: Cache, ttl: int, id: string, now: int, a: Answer, index: map<string, string>)
    : (Cache, Option<Row>)
  {
    if NegFresh(c.neg, id, now, ttl) then (c, if id in c.rows then Some(c.rows[id]) else None)
    else if id in c.rows then (c, Some(c.rows[id]))
    else if id == "" then (c, None)
    else Fill(c, id, now, a, index)
  }

  function ByName(c: Cache, ttl: int, name: string, now: int, a: Answer, index: map<string, string>)
    : (Cache, Option<Row>)
  {
    if NegFresh(c.negNames, name, now, ttl) then (c, None)
    else if name in c.names && c.names[name] in c.rows then (c, Some(c.rows[c.names[name]]))
    else match a
      case Found(row) => (Filled(c, row, index), Some(row))
      case NotFound => (c.(negNames := c.negNames[name := now]), None)
      case Infra => (c.(healthy := false), None)
  }

  // -------------------------------------------------------------------------- writes

  function ShadowOf(rows: map<string, Row>, id: string): string {
    if id in rows && rows[id].IsGroup() then rows[id].shadow else ""
  }

  /** The write-through of AddModel, after the store accepted the row. */
  function Added(c: Cache, row: Row, index: map<string, string>): Cache {
    var gone := if row.IsGroup() && row.shadow != "" then {row.shadow} else {};
    var rows := c.rows[row.id := row] - gone;
    c.(rows := rows, names := c.names[row.name := row.id], neg := c.neg - {row.id} - gone,
        negNames := c.negNames - {row.name},
       snap := rows.Values, claims := index, healthy := true)
  }

  function EvictedByUpdate(rows: map<string, Row>, id: string, row: Row): set<string> {
    var before := ShadowOf(rows, id);
    (if before != "" then {before} else {})
        + (if (row.IsGroup() || before != "") && row.shadow != "" then {row.shadow} else {})
  }

  function Updated(c: Cache, id: string, row: Row, index: map<string, string>): Cache {
    var gone := EvictedByUpdate(c.rows, id, row);
    var rows := (c.rows - {id})[row.id := row] - gone;
    var names := if id in c.rows && c.rows[id].name != row.name then c.names - {c.rows[id].name} else c.names;
    c.(rows := rows, names := names[row.name := row.id], neg := c.neg - {row.id} - gone,
        negNames := c.negNames - {row.name},
       snap := rows.Values, claims := index, healthy := true)
  }

  function RemovedModel(c: Cache, id: string, index: map<string, string>): Cache {
    var gone := if ShadowOf(c.rows, id) != "" then {ShadowOf(c.rows, id)} else {};
    var rows := c.rows - {id} - gone;
    var c1 := if id in c.rows
        then c.(names := c.names - {c.rows[id].name}, negNames := c.negNames - {c.rows[id].name}) else c;
    c1.(rows := rows, neg := c.neg - {id} - gone, snap := rows.Values, claims := index)
  }

  // ------------------------------------------------------------------------ reconciler

  function ById(list: seq<Row>): map<string, Row> {
    if list == [] then map[] else ById(list[..|list| - 1])[list[|list| - 1].id := list[|list| - 1]]
  }

  function ByNames(list: seq<Row>): map<string, string> {
    if list == [] then map[] else ByNames(list[..|list| - 1])[list[|list| - 1].name := list[|list| - 1].id]
  }

  /** A scan that lists nothing where there was something is not believed. */
  predicate Suspicious(c: Cache, scan: Scan) {
    scan.Scanned? && ((scan.rows == [] && c.snap != {}) || (scan.creds == map[] && c.creds != map[]))
  }

  /** applySnapshot: every tier rebuilt from one full scan. */
  function Snapshot(list: seq<Row>, creds: map<string, string>, now: int, index: map<string, string>): Cache {
    Cache(ById(list), ByNames(list), map[], map[], creds, (set r | r in list), index, true, now)
  }

  function Reconciled(c: Cache, scan: Scan, now: int, index: map<string, string>): Cache {
    if scan.Failed? || Suspicious(c, scan) then c.(healthy := false)
    else Snapshot(scan.rows, scan.creds, now, index)
  }

  // ------------------------------------------------------------------------------ runs

  datatype Op =
    | Get(id: string, now: int, answer: Answer, index: map<string, string>)
    | GetNative(id: string, now: int, answer: Answer, index: map<string, string>)
    | Resolve(id: string, now: int, answer: Answer, index: map<string, string>)
    | GetByName(name: string, now: int, answer: Answer, index: map<string, string>)
    | Add(row: Row, index: map<string, string>)
    | Update(id: string, row: Row, index: map<string, string>)
    | Remove(id: string, index: map<string, string>)
    | Reconcile(scan: Scan, now: int, index: map<string, string>)

  ghost function Do(c: Cache, ttl: int, op: Op): (Cache, Option<Row>) {
    match op
    case Get(id, now, a, index) => GetModel(c, ttl, id, now, a, index)
    case GetNative(id, now, a, index) => Native(c, ttl, id, now, a, index)
    case Resolve(id, now, a, index) => ResolveRow(c, ttl, id, now, a, index)
    case GetByName(name, now, a, index) => ByName(c, ttl, name, now, a, index)
    case Add(row, index) => (Added(c, row, index), None)
    case Update(id, row, index) => (Updated(c, id, row, index), None)
    case Remove(id, index) => (RemovedModel(c, id, index), None)
    case Reconcile(scan, now, index) => (Reconciled(c, scan, now, index), None)
  }

  /** The operation reads one row from the store. */
  ghost predicate Asks(c: Cache, ttl: int, op: Op) {
    match op
    case Get(id, now, _, _) => Redirect(c, id).None? && !NegFresh(c.neg, id, now, ttl) && id !in c.rows
    case GetNative(id, now, _, _) => id != "" && !NegFresh(c.neg, id, now, ttl) && id !in c.rows
    case Resolve(id, now, _, _) => id != "" && !NegFresh(c.neg, id, now, ttl) && id !in c.rows
    case GetByName(name, now, _, _) =>
      !NegFresh(c.negNames, name, now, ttl) && (name in c.names ==> c.names[name] !in c.rows)
    case _ => false
  }

  /** The operations that end in a rebuild of the index. */
  ghost predicate Rebuilds(c: Cache, ttl: int, op: Op) {
    match op
    case Reconcile(scan, _, _) => scan.Scanned? && !Suspicious(c, scan)
    case Add(_, _) => true
    case Update(_, _, _) => true
    case Remove(_, _) => true
    case _ => Asks(c, ttl, op) && op.answer.Found? && op.answer.row.IsGroup()
  }

  ghost predicate OneRowPerId(list: seq<Row>) {
    forall i, j | 0 <= i < j < |list| :: list[i].id != list[j].id
  }

  /** The store answers a read by id with the row of that id and lists each id once, and a rebuild
      yields an index of the rows it leaves. */
  ghost predicate Legal(c: Cache, ttl: int, op: Op) {
    && ((op.Get? || op.GetNative? || op.Resolve?) && op.answer.Found? ==> op.answer.row.id == op.id)
    && (op.Reconcile? && op.scan.Scanned? ==> OneRowPerId(op.scan.rows))
    && (Rebuilds(c, ttl, op) ==> ClaimIndex(Do(c, ttl, op).0.rows, op.index))
  }

  /** `absent` holds what the store itself denied, and when: (id, time). */
  datatype World = World(cache: Cache, absent: set<(string, int)>)

  ghost function Step(w: World, ttl: int, op: Op): World {
    World(Do(w.cache, ttl, op).0,
          if Asks(w.cache, ttl, op) && !op.GetByName? && op.answer.NotFound?
          then w.absent + {(op.id, op.now)} else w.absent)
  }

  ghost function Run(w: World, ttl: int, ops: seq<Op>): World
    decreases |ops|
  {
    if ops == [] then w else Run(if Legal(w.cache, ttl, ops[0]) then Step(w, ttl, ops[0]) else w, ttl, ops[1..])
  }

  /** The cache as priming leaves it. */
  ghost predicate Primed(w: World) {
    exists rows, creds, now, index ::
      OneRowPerId(rows) && ClaimIndex(ById(rows), index)
      && w.cache == Snapshot(rows, creds, now, index)
  }
}
