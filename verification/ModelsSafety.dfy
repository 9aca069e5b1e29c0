/** What every run of whole operations of the model cache keeps: row identity, disjoint tiers, honest
    negatives, sound and complete claims. Interleaved sections are in ModelsFlights. */
module ModelsSafety {
  import opened Options
  import opened ModelsCache

  // ------------------------------------------------------------------------ invariant

  ghost predicate Keyed(rows: map<string, Row>) {
    forall id | id in rows :: rows[id].id == id
  }

  /** An indexed enabled group claims the id it is indexed under. */
  ghost predicate ClaimsSound(c: Cache) {
    forall id | id in c.claims && Redirect(c, id).Some? :: Claimant(c.rows, c.claims[id], id)
  }

  /** A negative entry is a denial by the store itself, at the recorded time. */
  ghost predicate Honest(w: World) {
    forall id | id in w.cache.neg :: (id, w.cache.neg[id]) in w.absent
  }

  /** What holds in every interleaving, see ModelsFlights. */
  ghost predicate Base(w: World) {
    Keyed(w.cache.rows) && w.cache.snap == w.cache.rows.Values && ClaimsSound(w.cache) && Honest(w)
  }

  /** No id is cached both ways. */
  ghost predicate Disjoint(c: Cache) {
    c.neg.Keys !! c.rows.Keys
  }

  ghost predicate Inv(w: World) {
    Base(w) && Disjoint(w.cache)
  }

  lemma {:induction false} ByIdFacts(list: seq<Row>)
    requires OneRowPerId(list)
    ensures Keyed(ById(list)) && ById(list).Values == set r | r in list
    ensures forall i | 0 <= i < |list| :: list[i].id in ById(list) && ById(list)[list[i].id] == list[i]
  {
    if list != [] {
      var init, last := list[..|list| - 1], list[|list| - 1];
      ByIdFacts(init);
      assert forall i | 0 <= i < |list| - 1 :: list[i] == init[i];
      forall id | id in ById(init) ensures ById(init)[id] in list && id != last.id {
        assert ById(init)[id] in ById(init).Values;
        assert ById(init)[id] in init;
      }
      forall r | r in list ensures r in ById(list).Values {
        var i :| 0 <= i < |list| && list[i] == r;
        assert ById(list)[list[i].id] == r;
      }
      assert forall r | r in ById(list).Values :: r in list;
    }
  }

  lemma PrimedIsInv(w: World)
    requires Primed(w)
    ensures Inv(w)
  {
    var rows, creds, now, index :|
      OneRowPerId(rows) && ClaimIndex(ById(rows), index)
      && w.cache == Snapshot(rows, creds, now, index);
    ByIdFacts(rows);
  }

  lemma FillKeeps(w: World, row: Row, index: map<string, string>, absent: set<(string, int)>)
    requires Base(w) && w.absent <= absent && (row.IsGroup() ==> ClaimIndex(Filled(w.cache, row, index).rows, index))
    ensures Base(World(Filled(w.cache, row, index), absent))
    ensures Disjoint(w.cache) ==> Disjoint(Filled(w.cache, row, index))
  {
  }

  /** A believed scan replaces all tiers, whatever they held. */
  lemma SwapKeeps(w: World, rows: seq<Row>, creds: map<string, string>, now: int, index: map<string, string>)
    requires OneRowPerId(rows) && ClaimIndex(ById(rows), index)
    ensures Inv(w.(cache := Snapshot(rows, creds, now, index)))
  {
    ByIdFacts(rows);
  }

  lemma ReconcileKeeps(w: World, ttl: int, op: Op)
    requires Base(w) && Legal(w.cache, ttl, op) && op.Reconcile?
    ensures Base(Step(w, ttl, op)) && (Disjoint(w.cache) ==> Disjoint(Step(w, ttl, op).cache))
  {
    if Rebuilds(w.cache, ttl, op) {
      SwapKeeps(w, op.scan.rows, op.scan.creds, op.now, op.index);
    }
  }

  lemma WriteKeeps(w: World, ttl: int, op: Op)
    requires Base(w) && Legal(w.cache, ttl, op) && (op.Add? || op.Update? || op.Remove?)
    ensures Base(Step(w, ttl, op)) && (Disjoint(w.cache) ==> Disjoint(Step(w, ttl, op).cache))
  {
    var c' := Step(w, ttl, op).cache;
    assert c'.claims == op.index && ClaimIndex(c'.rows, c'.claims);
    if op.Add? {
      assert Keyed(c'.rows);
    } else if op.Update? {
      assert Keyed(c'.rows);
    }
  }

  lemma NegativeKeeps(w: World, id: string, now: int)
    requires Base(w)
    ensures var c := w.cache.(neg := w.cache.neg[id := now]);
      && Base(World(c, w.absent + {(id, now)}))
      && (Disjoint(w.cache) ==> (Disjoint(c) <==> id !in w.cache.rows))
  {
    assert id in w.cache.neg[id := now].Keys;
  }

  /** A read leaves the cache alone, fills it, notes a denial or notes an outage. */
  lemma ReadEffect(c: Cache, ttl: int, op: Op)
    requires op.Get? || op.GetNative? || op.Resolve? || op.GetByName?
    ensures Do(c, ttl, op).0 ==
      if !Asks(c, ttl, op) then c
      else match op.answer
        case Found(row) => Filled(c, row, op.index)
        case NotFound => if op.GetByName? then c.(negNames := c.negNames[op.name := op.now])
            else c.(neg := c.neg[op.id := op.now])
        case Infra => c.(healthy := false)
  {
  }

  lemma ReadKeeps(w: World, ttl: int, op: Op)
    requires Inv(w) && Legal(w.cache, ttl, op) && (op.Get? || op.GetNative? || op.Resolve? || op.GetByName?)
    ensures Inv(Step(w, ttl, op))
  {
    ReadEffect(w.cache, ttl, op);
    if Asks(w.cache, ttl, op) {
      if op.answer.Found? {
        FillKeeps(w, op.answer.row, op.index, w.absent);
      } else if op.answer.NotFound? && !op.GetByName? {
        NegativeKeeps(w, op.id, op.now);
      }
    }
  }

  lemma StepKeeps(w: World, ttl: int, op: Op)
    requires Inv(w) && Legal(w.cache, ttl, op)
    ensures Inv(Step(w, ttl, op))
  {
    match op {
      case Reconcile(_, _, _) => ReconcileKeeps(w, ttl, op);
      case Add(_, _) => WriteKeeps(w, ttl, op);
      case Update(_, _, _) => WriteKeeps(w, ttl, op);
      case Remove(_, _) => WriteKeeps(w, ttl, op);
      case _ => ReadKeeps(w, ttl, op);
    }
  }

  lemma {:induction false} RunKeeps(w: World, ttl: int, ops: seq<Op>)
    requires Inv(w)
    ensures Inv(Run(w, ttl, ops))
    decreases |ops|
  {
    if ops != [] {
      if Legal(w.cache, ttl, ops[0]) {
        StepKeeps(w, ttl, ops[0]);
      }
      RunKeeps(if Legal(w.cache, ttl, ops[0]) then Step(w, ttl, ops[0]) else w, ttl, ops[1..]);
    }
  }

  // --------------------------------------------------------- no outage read as not-found

  ghost predicate DeniedWithin(absent: set<(string, int)>, id: string, now: int, ttl: int) {
    exists at :: (id, at) in absent && now - at <= ttl
  }

  /** Over every run of whole operations from boot: a lookup that returns nothing either asked the store and could not
      reach it, and then the cache reports unhealthy, or the store itself denied the id no longer
      than the negative TTL ago. */
  lemma NothingMeansDenied(w: World, ttl: int, ops: seq<Op>, op: Op, w1: World)
    requires Primed(w) && ttl >= 0 && w1 == Run(w, ttl, ops)
    requires (op.Get? || op.GetNative? || op.Resolve?) && Legal(w1.cache, ttl, op)
    requires Do(w1.cache, ttl, op).1.None? && op.id != ""
    ensures var w2 := Step(w1, ttl, op);
      if Asks(w1.cache, ttl, op) && op.answer.Infra? then !w2.cache.healthy
      else DeniedWithin(w2.absent, op.id, op.now, ttl)
  {
    PrimedIsInv(w);
    RunKeeps(w, ttl, ops);
    var w2 := Step(w1, ttl, op);
    if Asks(w1.cache, ttl, op) {
      assert op.answer.NotFound? ==> (op.id, op.now) in w2.absent;
    } else {
      assert (op.id, w1.cache.neg[op.id]) in w2.absent;
    }
  }

  /** A scan that failed or is not believed changes nothing but the health flag; a believed one
      replaces all tiers by exactly its rows. */
  lemma ReconcileIsAllOrNothing(c: Cache, ttl: int, op: Op)
    requires op.Reconcile? && Legal(c, ttl, op)
    ensures var c' := Do(c, ttl, op).0;
      if op.scan.Failed? || Suspicious(c, op.scan) then c' == c.(healthy := false)
      else
        && c'.healthy && c'.neg == map[] && c'.snap == c'.rows.Values
        && (forall r: Row :: r in op.scan.rows <==> r.id in c'.rows && c'.rows[r.id] == r)
  {
    if op.scan.Scanned? {
      ByIdFacts(op.scan.rows);
      var rows := ById(op.scan.rows);
      forall r: Row | r.id in rows && rows[r.id] == r ensures r in op.scan.rows {
        assert r in rows.Values;
      }
    }
  }

  // ------------------------------------------------------------------------- claims

  ghost predicate Claimed(rows: map<string, Row>, id: string) {
    exists g :: Claimant(rows, g, id)
  }

  /** Every claimed id is indexed under a claimant. */
  ghost predicate ClaimsComplete(c: Cache) {
    forall id | Claimed(c.rows, id) :: id in c.claims && Claimant(c.rows, c.claims[id], id)
  }

  /** `g` is indexed under an id that another cached group claims as well. */
  ghost predicate Contested(c: Cache, g: string) {
    exists id, h :: id in c.claims && c.claims[id] == g && h != g && Claimant(c.rows, h, id)
  }

  /** The one whole operation that can lose a claim: a read by name replaces the indexed claimant of a
      contested id by a row that is no group. */
  ghost predicate Upsets(c: Cache, ttl: int, op: Op) {
    && op.GetByName? && Asks(c, ttl, op) && op.answer.Found? && !op.answer.row.IsGroup()
    && Contested(c, op.answer.row.id)
  }

  lemma IndexIsComplete(rows: map<string, Row>, claims: map<string, string>)
    requires ClaimIndex(rows, claims)
    ensures forall id | Claimed(rows, id) :: id in claims && Claimant(rows, claims[id], id)
  {
  }

  /** A plain fill loses a claim exactly when it replaces the indexed claimant of a contested id. */
  lemma PlainFillComplete(c: Cache, row: Row, index: map<string, string>)
    requires ClaimsComplete(c) && !row.IsGroup()
    ensures ClaimsComplete(Filled(c, row, index)) <==> !Contested(c, row.id)
  {
    var c' := Filled(c, row, index);
    if Contested(c, row.id) {
      var id, h :| id in c.claims && c.claims[id] == row.id && h != row.id && Claimant(c.rows, h, id);
      assert Claimant(c'.rows, h, id);
      assert Claimed(c'.rows, id);
    } else {
      forall id | Claimed(c'.rows, id) ensures id in c.claims && Claimant(c'.rows, c.claims[id], id) {
        var g :| Claimant(c'.rows, g, id);
        assert Claimant(c.rows, g, id);
        assert Claimed(c.rows, id);
      }
    }
  }

  /** Completeness is kept exactly by the whole operations that do not upset a claim; the sections of
      interleaved reads are in ModelsFlightClaims. */
  lemma ClaimsKeptIff(w: World, ttl: int, op: Op)
    requires Inv(w) && ClaimsComplete(w.cache) && Legal(w.cache, ttl, op)
    ensures ClaimsComplete(Step(w, ttl, op).cache) <==> !Upsets(w.cache, ttl, op)
  {
    var c := w.cache;
    if Rebuilds(c, ttl, op) {
      RebuiltIsComplete(c, ttl, op);
    } else if Asks(c, ttl, op) && op.answer.Found? {
      ReadEffect(c, ttl, op);
      PlainFillKeptIff(c, ttl, op);
    } else {
      KeptAsItWas(c, ttl, op);
    }
  }

  lemma RebuiltIsComplete(c: Cache, ttl: int, op: Op)
    requires Legal(c, ttl, op) && Rebuilds(c, ttl, op)
    ensures ClaimsComplete(Do(c, ttl, op).0) && !Upsets(c, ttl, op)
  {
    var c' := Do(c, ttl, op).0;
    assert c'.claims == op.index;
    IndexIsComplete(c'.rows, c'.claims);
  }

  lemma KeptAsItWas(c: Cache, ttl: int, op: Op)
    requires ClaimsComplete(c) && !Rebuilds(c, ttl, op) && !(Asks(c, ttl, op) && op.answer.Found?)
    ensures ClaimsComplete(Do(c, ttl, op).0) && !Upsets(c, ttl, op)
  {
    if !op.Reconcile? {
      ReadEffect(c, ttl, op);
    }
    SameClaims(c, Do(c, ttl, op).0);
  }

  lemma SameClaims(c: Cache, c': Cache)
    requires ClaimsComplete(c) && c'.rows == c.rows && c'.claims == c.claims
    ensures ClaimsComplete(c')
  {
  }

  /** A plain row read by id was not cached, so it replaces no claimant. */
  lemma PlainFillKeptIff(c: Cache, ttl: int, op: Op)
    requires ClaimsComplete(c) && Legal(c, ttl, op) && Asks(c, ttl, op) && op.answer.Found? && !op.answer.row.IsGroup()
    ensures ClaimsComplete(Filled(c, op.answer.row, op.index)) <==> !Upsets(c, ttl, op)
  {
    var row := op.answer.row;
    PlainFillComplete(c, row, op.index);
    if !op.GetByName? && Contested(c, row.id) {
      var id, h :| id in c.claims && c.claims[id] == row.id && h != row.id && Claimant(c.rows, h, id);
      assert Claimed(c.rows, id);
    }
  }

  /** A run none of whose steps upsets a claim. */
  ghost predicate Calm(w: World, ttl: int, ops: seq<Op>)
    decreases |ops|
  {
    ops != [] ==>
      if Legal(w.cache, ttl, ops[0]) then !Upsets(w.cache, ttl, ops[0]) && Calm(Step(w, ttl, ops[0]), ttl, ops[1..])
      else Calm(w, ttl, ops[1..])
  }

  lemma {:induction false} CalmRunKeepsClaims(w: World, ttl: int, ops: seq<Op>)
    requires Inv(w) && ClaimsComplete(w.cache) && Calm(w, ttl, ops)
    ensures ClaimsComplete(Run(w, ttl, ops).cache)
    decreases |ops|
  {
    if ops != [] {
      if Legal(w.cache, ttl, ops[0]) {
        StepKeeps(w, ttl, ops[0]);
        ClaimsKeptIff(w, ttl, ops[0]);
      }
      CalmRunKeepsClaims(if Legal(w.cache, ttl, ops[0]) then Step(w, ttl, ops[0]) else w, ttl, ops[1..]);
    }
  }

  /** The answer to a client-facing lookup: a cached enabled group that claims the id if there is
      one, without asking the store; otherwise the row whose own id it is, or nothing. */
  lemma ClientSeesClaimant(w: World, ttl: int, ops: seq<Op>, op: Op, w1: World)
    requires Primed(w) && Calm(w, ttl, ops) && w1 == Run(w, ttl, ops) && op.Get? && Legal(w1.cache, ttl, op)
    ensures var (c', r) := Do(w1.cache, ttl, op);
      if Claimed(w1.cache.rows, op.id) then c' == w1.cache && r.Some? && Claimant(w1.cache.rows, r.value.id, op.id)
      else r.Some? ==> r.value.id == op.id
  {
    PrimedIsInv(w);
    var rows, creds, now, index :|
        OneRowPerId(rows) && ClaimIndex(ById(rows), index) && w.cache == Snapshot(rows, creds, now, index);
    IndexIsComplete(w.cache.rows, w.cache.claims);
    RunKeeps(w, ttl, ops);
    CalmRunKeepsClaims(w, ttl, ops);
    if Redirect(w1.cache, op.id).Some? {
      assert Claimed(w1.cache.rows, op.id);
    }
  }

  /** The reads by direct id never yield a row with a different id, in any run whatsoever, and the
      resolver's row lookup is the direct read. */
  lemma DirectReadsKeepIdentity(w: World, ttl: int, ops: seq<Op>, op: Op, w1: World)
    requires Primed(w) && w1 == Run(w, ttl, ops) && Legal(w1.cache, ttl, op) && (op.GetNative? || op.Resolve?)
    requires op.id != ""
    ensures Do(w1.cache, ttl, op).1.Some? ==> Do(w1.cache, ttl, op).1.value.id == op.id
    ensures Do(w1.cache, ttl, op) == Native(w1.cache, ttl, op.id, op.now, op.answer, op.index)
  {
    PrimedIsInv(w);
    RunKeeps(w, ttl, ops);
  }

  /** A group write takes the id it claims: clients are redirected from then on, while a direct read
      of the claimed row, whose entry the write evicted, gets the store's row and caches it without
      giving the id back. */
  lemma GroupWriteTakesClaim(w: World, ttl: int, row: Row, index: map<string, string>, now: int, member: Row,
                             index': map<string, string>)
    requires Inv(w) && Legal(w.cache, ttl, Add(row, index))
    requires row.IsGroup() && row.enabled && row.shadow != "" && row.shadow != row.id
    requires member.id == row.shadow && !member.IsGroup()
    ensures var c1 := Added(w.cache, row, index);
      var (c2, direct) := Native(c1, ttl, row.shadow, now, Found(member), index');
      && row.shadow !in c1.rows && direct == Some(member) && c2.rows[row.shadow] == member
      && (forall a, i :: GetModel(c1, ttl, row.shadow, now, a, i).1.Some?
                         && Claimant(c1.rows, GetModel(c1, ttl, row.shadow, now, a, i).1.value.id, row.shadow))
      && (forall a, i :: GetModel(c2, ttl, row.shadow, now, a, i).1 == GetModel(c1, ttl, row.shadow, now, a, i).1)
  {
    var c1 := Added(w.cache, row, index);
    WriteKeeps(w, ttl, Add(row, index));
    IndexIsComplete(c1.rows, c1.claims);
    assert Claimant(c1.rows, row.id, row.shadow);
    assert Claimed(c1.rows, row.shadow);
    assert row.shadow !in c1.rows && row.shadow !in c1.neg;
  }

  lemma SnapshotOfTwo(g: Row, h: Row, index: map<string, string>) returns (w: World)
    requires g.id != h.id && g.name != h.name && ClaimIndex(map[g.id := g, h.id := h], index)
    ensures w.cache.rows == map[g.id := g, h.id := h] && w.cache.names == map[g.name := g.id, h.name := h.id]
    ensures w.cache.negNames == map[] && w.cache.claims == index && Primed(w)
  {
    var list := [g, h];
    assert list[..1] == [g] && list[..1][..0] == [] && ById([]) == map[] && ByNames([]) == map[];
    assert ById(list[..1]) == map[g.id := g] && ByNames(list[..1]) == map[g.name := g.id];
    assert ById(list) == map[g.id := g, h.id := h] && ByNames(list) == map[g.name := g.id, h.name := h.id];
    w := World(Snapshot(list, map[], 0, index), {});
    assert OneRowPerId(list);
  }

  /** Why the calmness is needed. The store holds two enabled groups that claim `a`: each was checked
      before the other was stored, or one was written to the database by another program. The cache
      is primed with both; then the indexed one was made a plain model and renamed there, it is read
      by its new name, and `a` loses its redirect although a claimant is cached. */
  lemma UpsetLosesClaim(ttl: int) returns (w: World, op: Op)
    ensures Primed(w) && ClaimsComplete(w.cache) && Legal(w.cache, ttl, op) && Upsets(w.cache, ttl, op)
    ensures Claimed(Step(w, ttl, op).cache.rows, "a") && Redirect(Step(w, ttl, op).cache, "a").None?
  {
    var g, h := Row("g", "g", Group, true, "a", ""), Row("h", "h", Group, true, "a", "");
    var rows, index := map["g" := g, "h" := h], map["a" := "g"];
    assert Claimant(rows, "h", "a") && Claimant(rows, "g", "a");
    w := SnapshotOfTwo(g, h, index);
    IndexIsComplete(rows, index);
    op := GetByName("new", 0, Found(Row("g", "new", Chat, true, "", "")), map[]);
    var c' := Step(w, ttl, op).cache;
    assert c' == Filled(w.cache, op.answer.row, op.index);
    assert Claimant(c'.rows, "h", "a");
  }
}
