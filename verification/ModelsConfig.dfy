/** CachedModelsConfig as the source keeps it: maps, snapshot, claim index and flags changed in place
    by reads, write-through mutators and the reconciler. Each method is proved against ModelsCache. */
module ModelsConfigObject {
  import opened Options
  import opened ModelsCache

  /** The ids an eviction names; the empty one is skipped. */
  ghost function Named(shadows: seq<string>): set<string> {
    if shadows == [] then {}
    else Named(shadows[..|shadows| - 1]) + if shadows[|shadows| - 1] == "" then {} else {shadows[|shadows| - 1]}
  }

  lemma NamedOne(a: string)
    ensures Named([a]) == if a == "" then {} else {a}
  {
    assert [a][..0] == [];
  }

  lemma NamedTwo(a: string, b: string)
    ensures Named([a, b]) == (if a == "" then {} else {a}) + (if b == "" then {} else {b})
  {
    NamedOne(a);
    assert [a, b][..1] == [a];
  }

  class CachedModelsConfig {
    const negTTL: int
    var modelsByID: map<string, Row>
    var modelsByName: map<string, string>
    var negByID: map<string, int>
    var negByName: map<string, int>
    var credsByID: map<string, string>
    var modelsSnap: set<Row>
    var claimsByID: map<string, string>
    var healthy: bool
    var lastRefresh: int

    ghost function View(): Cache
      reads this
    {
      Cache(modelsByID, modelsByName, negByID, negByName, credsByID, modelsSnap, claimsByID, healthy, lastRefresh)
    }

    /** Priming: a first full scan or no cache at all (a failed scan aborts the boot). */
    constructor (negTTL: int, list: seq<Row>, creds: map<string, string>, now: int)
      ensures this.negTTL == negTTL
      ensures ClaimIndex(modelsByID, claimsByID) && View() == Snapshot(list, creds, now, claimsByID)
    {
      this.negTTL := negTTL;
      new;
      ApplySnapshot(list, creds, now);
    }

    method ApplySnapshot(list: seq<Row>, creds: map<string, string>, now: int)
      modifies this
      ensures ClaimIndex(modelsByID, claimsByID) && View() == Snapshot(list, creds, now, claimsByID)
    {
      var byID: map<string, Row> := map[];
      var byName: map<string, string> := map[];
      for i := 0 to |list|
        invariant byID == ById(list[..i]) && byName == ByNames(list[..i])
      {
        assert list[..i + 1][..i] == list[..i];
        byID := byID[list[i].id := list[i]];
        byName := byName[list[i].name := list[i].id];
      }
      assert list[..|list|] == list;
      modelsByID, modelsByName, credsByID := byID, byName, creds;
      negByID, negByName := map[], map[];
      modelsSnap := set r | r in list;
      RebuildClaims();
      lastRefresh, healthy := now, true;
    }

    /** rebuildClaimsLocked: one pass over the rows in any order; a later claimant overwrites. */
    method RebuildClaims()
      modifies this`claimsByID
      ensures ClaimIndex(modelsByID, claimsByID)
    {
      var claims: map<string, string> := map[];
      var left := modelsByID.Keys;
      while left != {}
        invariant left <= modelsByID.Keys
        invariant forall id | id in claims :: Claimant(modelsByID, claims[id], id)
        invariant forall g | g in modelsByID && g !in left && Claimant(modelsByID, g, modelsByID[g].shadow) ::
            modelsByID[g].shadow in claims
        decreases |left|
      {
        var g :| g in left;
        left := left - {g};
        var m := modelsByID[g];
        if m.IsGroup() && m.enabled && m.shadow != "" && m.shadow != g {
          claims := claims[m.shadow := g];
        }
      }
      claimsByID := claims;
    }

    /** evictClaimEntriesLocked. */
    method EvictClaimEntries(shadows: seq<string>)
      modifies this`modelsByID, this`negByID
      ensures modelsByID == old(modelsByID) - Named(shadows) && negByID == old(negByID) - Named(shadows)
    {
      for i := 0 to |shadows|
        invariant modelsByID == old(modelsByID) - Named(shadows[..i]) && negByID == old(negByID) - Named(shadows[..i])
      {
        assert shadows[..i + 1][..i] == shadows[..i];
        if shadows[i] != "" {
          modelsByID := modelsByID - {shadows[i]};
          negByID := negByID - {shadows[i]};
        }
      }
      assert shadows[..|shadows|] == shadows;
    }

    // ------------------------------------------------------------------------- reads

    method LookupCached(id: string, now: int) returns (m: Option<Row>, negFresh: bool)
      ensures negFresh <==> NegFresh(negByID, id, now, negTTL)
      ensures m == if !negFresh && id in modelsByID then Some(modelsByID[id]) else None
    {
      if id in negByID && now - negByID[id] <= negTTL {
        return None, true;
      }
      return if id in modelsByID then Some(modelsByID[id]) else None, false;
    }

    /** cacheModel. */
    method CacheModel(row: Row)
      modifies this
      ensures View() == Filled(old(View()), row, claimsByID)
      ensures row.IsGroup() ==> ClaimIndex(modelsByID, claimsByID)
    {
      modelsByID := modelsByID[row.id := row];
      modelsByName := modelsByName[row.name := row.id];
      negByID := negByID - {row.id};
      negByName := negByName - {row.name};
      modelsSnap := modelsByID.Values;
      if row.IsGroup() {
        RebuildClaims();
      }
    }

    /** The tail of every read by id that missed. */
    method FillModel(id: string, now: int, a: Answer) returns (m: Option<Row>)
      modifies this
      ensures (View(), m) == Fill(old(View()), id, now, a, claimsByID)
      ensures a.Found? && a.row.IsGroup() ==> ClaimIndex(modelsByID, claimsByID)
    {
      match a {
        case Found(row) =>
          CacheModel(row);
          m := Some(row);
        case NotFound =>
          negByID := negByID[id := now];
          m := None;
        case Infra =>
          healthy := false;
          m := None;
      }
    }

    /** The cached enabled group that the index names for an id. */
    method ActiveClaim(id: string) returns (g: Option<Row>)
      ensures g == Redirect(View(), id)
    {
      g := None;
      if id in claimsByID && claimsByID[id] in modelsByID {
        var row := modelsByID[claimsByID[id]];
        if row.enabled && row.IsGroup() {
          g := Some(row);
        }
      }
    }

    /** GetModel, uninterrupted: claims first, then negative, hit, fill. A denied fill looks at the
        claims once more and notes the denial only if there is none. */
    method GetModel(id: string, now: int, a: Answer) returns (m: Option<Row>)
      modifies this
      ensures (View(), m) == ModelsCache.GetModel(old(View()), negTTL, id, now, a, claimsByID)
      ensures Asks(old(View()), negTTL, Get(id, now, a, claimsByID)) && a.Found? && a.row.IsGroup() ==>
        ClaimIndex(modelsByID, claimsByID)
    {
      m := ActiveClaim(id);
      if m.Some? {
        return;
      }
      var negFresh;
      m, negFresh := LookupCached(id, now);
      if negFresh || m.Some? {
        return;
      }
      if a.NotFound? {
        m := ActiveClaim(id);
        if m.None? {
          negByID := negByID[id := now];
        }
      } else {
        m := FillModel(id, now, a);
      }
    }

    /** GetModelNative, uninterrupted: no claims. */
    method GetModelNative(id: string, now: int, a: Answer) returns (m: Option<Row>)
      modifies this
      ensures (View(), m) == Native(old(View()), negTTL, id, now, a, claimsByID)
      ensures Asks(old(View()), negTTL, GetNative(id, now, a, claimsByID)) && a.Found? && a.row.IsGroup() ==>
          ClaimIndex(modelsByID, claimsByID)
    {
      if id == "" {
        return None;
      }
      var negFresh;
      m, negFresh := LookupCached(id, now);
      if negFresh || m.Some? {
        return;
      }
      m := FillModel(id, now, a);
    }

    /** The row lookup of ResolveInternalConfigWithAffinity, uninterrupted. */
    method ResolveModel(id: string, now: int, a: Answer) returns (m: Option<Row>)
      modifies this
      ensures (View(), m) == ResolveRow(old(View()), negTTL, id, now, a, claimsByID)
      ensures Asks(old(View()), negTTL, Resolve(id, now, a, claimsByID)) && a.Found? && a.row.IsGroup() ==>
          ClaimIndex(modelsByID, claimsByID)
    {
      var negFresh;
      m, negFresh := LookupCached(id, now);
      if negFresh || m.None? {
        if !negFresh && id != "" {
          m := FillModel(id, now, a);
        }
        if m.None? && id in modelsByID {
          m := Some(modelsByID[id]);
        }
      }
    }

    /** GetModelByName, uninterrupted. */
    method GetModelByName(name: string, now: int, a: Answer) returns (m: Option<Row>)
      modifies this
      ensures (View(), m) == ByName(old(View()), negTTL, name, now, a, claimsByID)
      ensures Asks(old(View()), negTTL, GetByName(name, now, a, claimsByID)) && a.Found? && a.row.IsGroup() ==>
          ClaimIndex(modelsByID, claimsByID)
    {
      if name in negByName && now - negByName[name] <= negTTL {
        return None;
      }
      if name in modelsByName && modelsByName[name] in modelsByID {
        return Some(modelsByID[modelsByName[name]]);
      }
      match a {
        case Found(row) =>
          CacheModel(row);
          m := Some(row);
        case NotFound =>
          negByName := negByName[name := now];
          m := None;
        case Infra =>
          healthy := false;
          m := None;
      }
    }

    // ------------------------------------------------------------------------- writes

    /** AddModel after the inner store accepted the row. */
    method AddModel(row: Row)
      modifies this
      ensures ClaimIndex(modelsByID, claimsByID) && View() == Added(old(View()), row, claimsByID)
    {
      modelsByID := modelsByID[row.id := row];
      modelsByName := modelsByName[row.name := row.id];
      negByID := negByID - {row.id};
      negByName := negByName - {row.name};
      TakeClaim(row);
      modelsSnap := modelsByID.Values;
      RebuildClaims();
      healthy := true;
    }

    /** The eviction of an addition: the id claimed. */
    method TakeClaim(row: Row)
      modifies this`modelsByID, this`negByID
      ensures var gone := if row.IsGroup() && row.shadow != "" then {row.shadow} else {};
        modelsByID == old(modelsByID) - gone && negByID == old(negByID) - gone
    {
      if row.IsGroup() {
        NamedOne(row.shadow);
        EvictClaimEntries([row.shadow]);
      }
    }

    /** UpdateModel after the inner store accepted the row. */
    method UpdateModel(id: string, row: Row)
      modifies this
      ensures ClaimIndex(modelsByID, claimsByID) && View() == Updated(old(View()), id, row, claimsByID)
    {
      var oldShadow := ShadowOf(modelsByID, id);
      if id in modelsByID && modelsByID[id].name != row.name {
        modelsByName := modelsByName - {modelsByID[id].name};
      }
      modelsByID := (modelsByID - {id})[row.id := row];
      modelsByName := modelsByName[row.name := row.id];
      negByID := negByID - {row.id};
      negByName := negByName - {row.name};
      ReleaseClaims(oldShadow, row);
      modelsSnap := modelsByID.Values;
      RebuildClaims();
      healthy := true;
    }

    /** The evictions of an update: the id released and the id claimed. */
    method ReleaseClaims(oldShadow: string, row: Row)
      modifies this`modelsByID, this`negByID
      ensures var gone := (if oldShadow != "" then {oldShadow} else {})
                          + (if (row.IsGroup() || oldShadow != "") && row.shadow != "" then {row.shadow} else {});
        modelsByID == old(modelsByID) - gone && negByID == old(negByID) - gone
    {
      if row.IsGroup() || oldShadow != "" {
        NamedTwo(oldShadow, row.shadow);
        EvictClaimEntries([oldShadow, row.shadow]);
      }
    }

    /** RemoveModel after the inner store agreed. */
    method RemoveModel(id: string)
      modifies this
      ensures ClaimIndex(modelsByID, claimsByID) && View() == RemovedModel(old(View()), id, claimsByID)
    {
      var oldShadow := ShadowOf(modelsByID, id);
      if id in modelsByID {
        modelsByName := modelsByName - {modelsByID[id].name};
        negByName := negByName - {modelsByID[id].name};
      }
      modelsByID := modelsByID - {id};
      negByID := negByID - {id};
      if oldShadow != "" {
        NamedOne(oldShadow);
        EvictClaimEntries([oldShadow]);
      }
      ghost var gone := if oldShadow != "" then {oldShadow} else {};
      assert modelsByID == old(modelsByID) - {id} - gone && negByID == old(negByID) - {id} - gone;
      modelsSnap := modelsByID.Values;
      RebuildClaims();
    }

    /** reconcileOnce. */
    method ReconcileOnce(scan: Scan, now: int)
      modifies this
      ensures View() == Reconciled(old(View()), scan, now, claimsByID)
      ensures scan.Scanned? && !Suspicious(old(View()), scan) ==> ClaimIndex(modelsByID, claimsByID)
    {
      var failed := scan.Failed?;
      if !failed && ((scan.rows == [] && modelsSnap != {}) || (scan.creds == map[] && credsByID != map[])) {
        failed := true;
      }
      if failed {
        healthy := false;
      } else {
        ApplySnapshot(scan.rows, scan.creds, now);
      }
    }
  }
}
