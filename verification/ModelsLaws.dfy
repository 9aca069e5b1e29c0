/** What the operations of the model cache do to each tier, entry by entry, and when a scan is believed and
    a denial replayed, told in the tiers and times themselves. */
module ModelsLaws {
  import opened Options
  import opened ModelsCache
  import opened ModelsSafety
  import F = ModelsFlights

  // ------------------------------------------------------------------------ the reconciler

  /** A scan that lists no models over a cache that lists some, or no credentials over cached ones. */
  ghost predicate Empties(c: Cache, rows: seq<Row>, creds: map<string, string>) {
    (|rows| == 0 && exists r :: r in c.snap) || (|creds| == 0 && exists k :: k in c.creds)
  }

  /** Every tier is what the scan lists, and nothing else. */
  ghost predicate HoldsScan(c: Cache, rows: seq<Row>, creds: map<string, string>, now: int) {
    && (forall r: Row :: r in rows <==> r.id in c.rows && c.rows[r.id] == r)
    && (forall r: Row :: r in rows <==> r in c.snap)
    && (forall n | n in c.names :: exists r :: r in rows && r.name == n && c.names[n] == r.id)
    && (forall r | r in rows :: r.name in c.names)
    && c.neg == map[] && c.negNames == map[] && c.creds == creds && c.healthy && c.lastRefresh == now
  }

  lemma {:induction false} NamesAreListed(list: seq<Row>)
    ensures forall n | n in ByNames(list) :: exists r :: r in list && r.name == n && ByNames(list)[n] == r.id
    ensures forall r | r in list :: r.name in ByNames(list)
  {
    if list != [] {
      var init, last := list[..|list| - 1], list[|list| - 1];
      NamesAreListed(init);
      assert list == init + [last];
      forall n | n in ByNames(list) ensures exists r :: r in list && r.name == n && ByNames(list)[n] == r.id {
        if n == last.name {
          assert last in list;
        } else {
          assert n in ByNames(init);
          var r :| r in init && r.name == n && ByNames(init)[n] == r.id;
          assert r in list;
        }
      }
    }
  }

  lemma SnapshotLaw(list: seq<Row>, creds: map<string, string>, now: int, index: map<string, string>)
    requires OneRowPerId(list)
    ensures HoldsScan(Snapshot(list, creds, now, index), list, creds, now)
  {
    ByIdFacts(list);
    NamesAreListed(list);
    forall r: Row | r.id in ById(list) && ById(list)[r.id] == r ensures r in list {
      assert r in ById(list).Values;
    }
  }

  /** A scan that failed, or that would empty what the cache lists, leaves every tier as it was and clears the
      health flag alone; any other scan is what the cache then holds. */
  lemma ReconcileLaw(c: Cache, scan: Scan, now: int, index: map<string, string>)
    requires scan.Scanned? ==> OneRowPerId(scan.rows)
    ensures var c' := Reconciled(c, scan, now, index);
      if scan.Failed? || Empties(c, scan.rows, scan.creds) then c' == c.(healthy := false)
      else HoldsScan(c', scan.rows, scan.creds, now) && c'.claims == index
  {
    if scan.Scanned? {
      EmptinessLaw(c, scan);
    }
    if scan.Scanned? && !Empties(c, scan.rows, scan.creds) {
      SnapshotLaw(scan.rows, scan.creds, now, index);
    }
  }

  lemma EmptinessLaw(c: Cache, scan: Scan)
    requires scan.Scanned?
    ensures scan.rows == [] <==> |scan.rows| == 0
    ensures scan.creds == map[] <==> |scan.creds| == 0
    ensures c.snap != {} <==> exists r :: r in c.snap
    ensures c.creds != map[] <==> exists k :: k in c.creds
  {
  }

  /** The judging section of an interleaved pass rejects exactly such scans, by what the cache lists at that
      moment; applying a rejected scan clears the health flag alone, applying a believed one installs it. */
  lemma JudgementLaw(f: F.Flights, ttl: int, k: nat)
    requires F.Fits(f, ttl, F.ScanJudge(k))
    ensures var f', scan := F.Step(f, ttl, F.ScanJudge(k)), f.scans[k].scan;
      && f'.world == f.world && f'.store == f.store
      && f'.scans[k] == if scan.Failed? || Empties(f.world.cache, scan.rows, scan.creds) then F.Rejected
           else F.Believed(scan.rows, scan.creds)
  {
    if f.scans[k].scan.Scanned? {
      EmptinessLaw(f.world.cache, f.scans[k].scan);
    }
  }

  lemma ApplicationLaw(f: F.Flights, ttl: int, k: nat, now: int, index: map<string, string>)
    requires F.ScansFit(f) && F.Fits(f, ttl, F.ScanApply(k, now, index))
    ensures var c, c', p := f.world.cache, F.Step(f, ttl, F.ScanApply(k, now, index)).world.cache, f.scans[k];
      if p.Rejected? then c' == c.(healthy := false)
      else HoldsScan(c', p.rows, p.creds, now) && c'.claims == index
  {
    if f.scans[k].Believed? {
      SnapshotLaw(f.scans[k].rows, f.scans[k].creds, now, index);
    }
  }

  // ----------------------------------------------------------------------------- reads

  /** A row enters the cache: under its id and its name, in the list, out of both denials; the claims are
      rebuilt for a group only. */
  ghost predicate Enters(c: Cache, row: Row, index: map<string, string>, c': Cache) {
    && c'.rows == c.rows[row.id := row] && c'.names == c.names[row.name := row.id]
    && (forall r :: r in c'.snap <==> exists id :: id in c'.rows && c'.rows[id] == r)
    && (forall id :: id in c'.neg <==> id in c.neg && id != row.id)
    && (forall id | id in c'.neg :: c'.neg[id] == c.neg[id])
    && (forall n :: n in c'.negNames <==> n in c.negNames && n != row.name)
    && (forall n | n in c'.negNames :: c'.negNames[n] == c.negNames[n])
    && c'.claims == (if row.kind == Group then index else c.claims)
    && c'.creds == c.creds && c'.healthy == c.healthy && c'.lastRefresh == c.lastRefresh
  }

  lemma FillLaw(c: Cache, row: Row, index: map<string, string>)
    ensures Enters(c, row, index, Filled(c, row, index))
  {
    var c' := Filled(c, row, index);
    forall r ensures r in c'.snap <==> exists id :: id in c'.rows && c'.rows[id] == r {
    }
  }

  /** The store decides a read by id: what it finds enters and is the answer, what it denies is noted now, and
      an outage clears the health flag alone. */
  ghost predicate StoreDecides(c: Cache, id: string, now: int, a: Answer, index: map<string, string>, c': Cache,
                               r: Option<Row>)
  {
    match a
    case Found(row) => r == Some(row) && Enters(c, row, index, c')
    case NotFound => r == None && c' == c.(neg := c.neg[id := now])
    case Infra => r == None && c' == c.(healthy := false)
  }

  /** The tiers decide a read by id: a denial no older than the TTL, or a cached row. */
  ghost predicate TiersDecide(c: Cache, ttl: int, id: string, now: int) {
    (id in c.neg && now - c.neg[id] <= ttl) || id in c.rows
  }

  ghost predicate FromTiers(c: Cache, ttl: int, id: string, now: int, r: Option<Row>) {
    if id in c.neg && now - c.neg[id] <= ttl then r == None else id in c.rows && r == Some(c.rows[id])
  }

  /** A cached enabled group that the index names for the id. */
  ghost predicate Redirected(c: Cache, id: string, g: Row) {
    id in c.claims && c.claims[id] in c.rows && c.rows[c.claims[id]] == g && g.enabled && g.kind == Group
  }

  /** The client read: the claim, the tiers, the store, in this order. */
  lemma ClientReadLaw(c: Cache, ttl: int, id: string, now: int, a: Answer, index: map<string, string>)
    ensures var (c', r) := GetModel(c, ttl, id, now, a, index);
      if exists g :: Redirected(c, id, g) then c' == c && r.Some? && Redirected(c, id, r.value)
      else if TiersDecide(c, ttl, id, now) then c' == c && FromTiers(c, ttl, id, now, r)
      else StoreDecides(c, id, now, a, index, c', r)
  {
    if a.Found? {
      FillLaw(c, a.row, index);
    }
    if Redirect(c, id).Some? {
      assert Redirected(c, id, Redirect(c, id).value);
    }
  }

  /** The direct read: the tiers, then the store, and never the claims. */
  lemma DirectReadLaw(c: Cache, ttl: int, id: string, now: int, a: Answer, index: map<string, string>)
    ensures var (c', r) := Native(c, ttl, id, now, a, index);
      if id == "" then c' == c && r == None
      else if TiersDecide(c, ttl, id, now) then c' == c && FromTiers(c, ttl, id, now, r)
      else StoreDecides(c, id, now, a, index, c', r)
  {
    if a.Found? {
      FillLaw(c, a.row, index);
    }
  }

  /** The resolver's read prefers a cached row to a denial, and asks as the direct read does. */
  lemma ResolverReadLaw(c: Cache, ttl: int, id: string, now: int, a: Answer, index: map<string, string>)
    ensures var (c', r) := ResolveRow(c, ttl, id, now, a, index);
      if id in c.rows then c' == c && r == Some(c.rows[id])
      else if id == "" || (id in c.neg && now - c.neg[id] <= ttl) then c' == c && r == None
      else StoreDecides(c, id, now, a, index, c', r)
  {
    if a.Found? {
      FillLaw(c, a.row, index);
    }
  }

  /** The read by name: a denial no older than the TTL, a cached row that the name leads to, the store. */
  lemma NamedReadLaw(c: Cache, ttl: int, name: string, now: int, a: Answer, index: map<string, string>)
    ensures var (c', r) := ByName(c, ttl, name, now, a, index);
      if name in c.negNames && now - c.negNames[name] <= ttl then c' == c && r == None
      else if name in c.names && c.names[name] in c.rows then c' == c && r == Some(c.rows[c.names[name]])
      else match a
        case Found(row) => r == Some(row) && Enters(c, row, index, c')
        case NotFound => r == None && c' == c.(negNames := c.negNames[name := now])
        case Infra => r == None && c' == c.(healthy := false)
  {
    if a.Found? {
      FillLaw(c, a.row, index);
    }
  }

  // ---------------------------------------------------------------------------- writes

  /** Rows and denials by id after a write: `row`, unless evicted, under its id; the row under `replaced` and
      those of the evicted ids gone; every other entry as it was. */
  ghost predicate RowsWritten(c: Cache, replaced: string, row: Row, evicted: string -> bool, c': Cache) {
    && (forall k :: k in c'.rows <==> !evicted(k) && (k == row.id || (k in c.rows && k != replaced)))
    && (forall k | k in c'.rows :: c'.rows[k] == if k == row.id then row else c.rows[k])
    && (forall k :: k in c'.neg <==> k in c.neg && k != row.id && !evicted(k))
    && (forall k | k in c'.neg :: c'.neg[k] == c.neg[k])
  }

  /** Names after a write: the row's name leads to it, the cleared name is gone, others are as they were; so
      are the denials by name, but for the row's. */
  ghost predicate NamesWritten(c: Cache, cleared: string -> bool, row: Row, c': Cache) {
    && (forall n :: n in c'.names <==> n == row.name || (n in c.names && !cleared(n)))
    && (forall n | n in c'.names :: c'.names[n] == if n == row.name then row.id else c.names[n])
    && (forall n :: n in c'.negNames <==> n in c.negNames && n != row.name)
    && (forall n | n in c'.negNames :: c'.negNames[n] == c.negNames[n])
  }

  /** The list follows the rows, the claims are rebuilt, credentials and refresh time stay. */
  ghost predicate ListFollows(c: Cache, index: map<string, string>, c': Cache) {
    && (forall r :: r in c'.snap <==> exists id :: id in c'.rows && c'.rows[id] == r)
    && c'.claims == index && c'.creds == c.creds && c'.lastRefresh == c.lastRefresh
  }

  /** The id that the cached row claims, if it is a group. */
  ghost predicate Held(c: Cache, id: string, k: string) {
    id in c.rows && c.rows[id].kind == Group && c.rows[id].shadow == k && k != ""
  }

  lemma ListLaw(c: Cache, c': Cache, index: map<string, string>)
    requires c'.snap == c'.rows.Values && c'.claims == index && c'.creds == c.creds && c'.lastRefresh == c.lastRefresh
    ensures ListFollows(c, index, c')
  {
    forall r ensures r in c'.snap <==> exists id :: id in c'.rows && c'.rows[id] == r {
    }
  }

  ghost predicate EvictedByAddition(row: Row, k: string) {
    row.kind == Group && k == row.shadow && k != ""
  }

  lemma AdditionRows(c: Cache, row: Row, index: map<string, string>)
    ensures RowsWritten(c, row.id, row, (k: string) => EvictedByAddition(row, k), Added(c, row, index))
  {
  }

  /** An addition: a group evicts the id it claims from rows and denials. */
  lemma AdditionLaw(c: Cache, row: Row, index: map<string, string>)
    ensures var c' := Added(c, row, index);
      && RowsWritten(c, row.id, row, (k: string) => EvictedByAddition(row, k), c')
      && NamesWritten(c, (n: string) => false, row, c') && ListFollows(c, index, c') && c'.healthy
  {
    AdditionRows(c, row, index);
    ListLaw(c, Added(c, row, index), index);
  }

  /** An update evicts the id that the cached row claimed, and the one the new row claims if either is a group
      with a claim. */
  ghost predicate Evicts(c: Cache, id: string, row: Row, k: string) {
    Held(c, id, k) || (k == row.shadow && k != "" && (row.kind == Group || exists j :: Held(c, id, j)))
  }

  lemma EvictsLaw(c: Cache, id: string, row: Row, k: string)
    ensures k in EvictedByUpdate(c.rows, id, row) <==> Evicts(c, id, row, k)
  {
    assert ShadowOf(c.rows, id) != "" ==> Held(c, id, ShadowOf(c.rows, id));
  }

  lemma UpdateRows(c: Cache, id: string, row: Row, index: map<string, string>)
    ensures RowsWritten(c, id, row, (k: string) => Evicts(c, id, row, k), Updated(c, id, row, index))
  {
    var gone := EvictedByUpdate(c.rows, id, row);
    forall k ensures k in gone <==> Evicts(c, id, row, k) {
      EvictsLaw(c, id, row, k);
    }
    var c' := Updated(c, id, row, index);
    assert c'.rows == (c.rows - {id})[row.id := row] - gone && c'.neg == c.neg - {row.id} - gone;
  }

  lemma UpdateNames(c: Cache, id: string, row: Row, index: map<string, string>)
    ensures NamesWritten(c, (n: string) => id in c.rows && c.rows[id].name == n && n != row.name, row,
                         Updated(c, id, row, index))
  {
  }

  /** An update: the old row goes, with its name where that changes, and the claims given up and taken are
      evicted. */
  lemma UpdateLaw(c: Cache, id: string, row: Row, index: map<string, string>)
    ensures var c' := Updated(c, id, row, index);
      && RowsWritten(c, id, row, (k: string) => Evicts(c, id, row, k), c')
      && NamesWritten(c, (n: string) => id in c.rows && c.rows[id].name == n && n != row.name, row, c')
      && ListFollows(c, index, c') && c'.healthy
  {
    UpdateRows(c, id, row, index);
    UpdateNames(c, id, row, index);
    ListLaw(c, Updated(c, id, row, index), index);
  }

  /** A removal: the row, its name, both denials and the id it claimed go; the health flag stays. */
  lemma RemovalLaw(c: Cache, id: string, index: map<string, string>)
    ensures var c' := RemovedModel(c, id, index);
      && (forall k :: k in c'.rows <==> k in c.rows && k != id && !Held(c, id, k))
      && (forall k | k in c'.rows :: c'.rows[k] == c.rows[k])
      && (forall k :: k in c'.neg <==> k in c.neg && k != id && !Held(c, id, k))
      && (forall k | k in c'.neg :: c'.neg[k] == c.neg[k])
      && (forall n :: n in c'.names <==> n in c.names && !(id in c.rows && c.rows[id].name == n))
      && (forall n | n in c'.names :: c'.names[n] == c.names[n])
      && (forall n :: n in c'.negNames <==> n in c.negNames && !(id in c.rows && c.rows[id].name == n))
      && (forall n | n in c'.negNames :: c'.negNames[n] == c.negNames[n])
      && ListFollows(c, index, c') && c'.healthy == c.healthy
  {
    ListLaw(c, RemovedModel(c, id, index), index);
  }
}
