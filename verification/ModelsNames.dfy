/** The name index of the model cache: when a read by name yields a row of that name. */
module ModelsNames {
  import opened Options
  import opened ModelsCache
  import opened ModelsSafety

  /** No name leads to a cached row of another name. */
  ghost predicate TrueNames(names: map<string, string>, rows: map<string, Row>) {
    forall n | n in names && names[n] in rows :: rows[names[n]].name == n
  }

  ghost predicate NamesTrue(c: Cache) {
    TrueNames(c.names, c.rows)
  }

  /** The row that an operation installs, if it installs one. */
  ghost function RowWritten(c: Cache, ttl: int, op: Op): Option<Row> {
    match op
    case Add(row, _) => Some(row)
    case Update(_, row, _) => Some(row)
    case Remove(_, _) => None
    case Reconcile(_, _, _) => None
    case _ => if Asks(c, ttl, op) && op.answer.Found? then Some(op.answer.row) else None
  }

  /** Some other name still leads to the id of the written row. An update first clears the old name,
      but it knows the old name only while the old row is cached. */
  ghost predicate Aliased(c: Cache, op: Op, row: Row) {
    exists n :: n in c.names && n != row.name && c.names[n] == row.id
      && !(op.Update? && op.id in c.rows && c.rows[op.id].name == n)
  }

  lemma {:induction false} ByNamesFacts(list: seq<Row>)
    requires OneRowPerId(list)
    ensures forall n | n in ByNames(list) :: ByNames(list)[n] in ById(list) && ById(list)[ByNames(list)[n]].name == n
  {
    if list != [] {
      ByNamesFacts(list[..|list| - 1]);
      ByIdFacts(list);
      var init, last := list[..|list| - 1], list[|list| - 1];
      forall n | n in ByNames(init) ensures ByNames(init)[n] != last.id {
        ByIdFacts(init);
        assert ById(init)[ByNames(init)[n]] in ById(init).Values;
        assert ById(init)[ByNames(init)[n]] in init;
      }
    }
  }

  lemma InstallKeepsNamesIff(names: map<string, string>, row: Row, rows: map<string, Row>)
    requires forall n | n in names && names[n] in rows && names[n] != row.id :: rows[names[n]].name == n
    requires row.id in rows ==> rows[row.id] == row
    ensures TrueNames(names[row.name := row.id], rows)
      <==> (row.id in rows ==> forall n | n in names && n != row.name :: names[n] != row.id)
  {
    var names' := names[row.name := row.id];
    forall n | n in names && n != row.name ensures n in names' && names'[n] == names[n] {
    }
  }

  /** The written row is still cached afterwards: the write does not evict its own id. */
  ghost predicate StaysCached(c: Cache, op: Op, row: Row) {
    match op
    case Add(_, _) => !(row.IsGroup() && row.shadow != "" && row.shadow == row.id)
    case Update(id, _, _) => row.id !in EvictedByUpdate(c.rows, id, row)
    case _ => true
  }

  /** The old name of the row under `id` is cleared where the row is cached. */
  ghost function NamesLeft(c: Cache, id: string, row: Row): map<string, string> {
    if id in c.rows && c.rows[id].name != row.name then c.names - {c.rows[id].name} else c.names
  }

  lemma AliasedIff(c: Cache, op: Op, row: Row)
    requires op.Update?
    ensures Aliased(c, op, row)
      <==> exists n :: n in NamesLeft(c, op.id, row) && n != row.name && NamesLeft(c, op.id, row)[n] == row.id
  {
    var names := NamesLeft(c, op.id, row);
    if Aliased(c, op, row) {
      var n :| n in c.names && n != row.name && c.names[n] == row.id
        && !(op.id in c.rows && c.rows[op.id].name == n);
      assert n in names && names[n] == row.id;
    }
    if n :| n in names && n != row.name && names[n] == row.id {
      assert n in c.names && c.names[n] == row.id;
    }
  }

  lemma UpdateKeepsNamesIff(c: Cache, op: Op)
    requires NamesTrue(c) && Keyed(c.rows) && op.Update?
    ensures NamesTrue(Updated(c, op.id, op.row, op.index))
      <==> (StaysCached(c, op, op.row) ==> !Aliased(c, op, op.row))
  {
    var row, c' := op.row, Updated(c, op.id, op.row, op.index);
    assert StaysCached(c, op, row) <==> row.id in c'.rows;
    InstallKeepsNamesIff(NamesLeft(c, op.id, row), row, c'.rows);
    AliasedIff(c, op, row);
  }

  lemma AddKeepsNamesIff(c: Cache, op: Op)
    requires NamesTrue(c) && Keyed(c.rows) && op.Add?
    ensures NamesTrue(Added(c, op.row, op.index)) <==> (StaysCached(c, op, op.row) ==> !Aliased(c, op, op.row))
  {
    var row, c' := op.row, Added(c, op.row, op.index);
    assert StaysCached(c, op, row) <==> row.id in c'.rows;
    InstallKeepsNamesIff(c.names, row, c'.rows);
  }

  lemma FillKeepsNamesIff(c: Cache, op: Op, row: Row, index: map<string, string>)
    requires NamesTrue(c) && Keyed(c.rows) && !op.Update?
    ensures NamesTrue(Filled(c, row, index)) <==> !Aliased(c, op, row)
  {
    InstallKeepsNamesIff(c.names, row, Filled(c, row, index).rows);
  }

  /** The name index stays true exactly when the written row, unless the write evicts it itself, has no
      second name in the index. */
  lemma NamesKeptIff(w: World, ttl: int, op: Op)
    requires Inv(w) && NamesTrue(w.cache) && Legal(w.cache, ttl, op)
    ensures var row := RowWritten(w.cache, ttl, op);
      NamesTrue(Step(w, ttl, op).cache)
      <==> (row.Some? && StaysCached(w.cache, op, row.value) ==> !Aliased(w.cache, op, row.value))
  {
    var c := w.cache;
    match op {
      case Add(_, _) => AddKeepsNamesIff(c, op);
      case Update(_, _, _) => UpdateKeepsNamesIff(c, op);
      case Remove(_, _) =>
      case Reconcile(scan, _, _) =>
        if scan.Scanned? && !Suspicious(c, scan) {
          ByNamesFacts(scan.rows);
        }
      case _ =>
        ReadEffect(c, ttl, op);
        if Asks(c, ttl, op) && op.answer.Found? {
          FillKeepsNamesIff(c, op, op.answer.row, op.index);
        }
    }
  }

  /** With a true index a cached answer to a read by name has that name. */
  lemma NamedRowHasName(c: Cache, ttl: int, op: Op)
    requires NamesTrue(c) && op.GetByName? && (op.answer.Found? ==> op.answer.row.name == op.name)
    ensures Do(c, ttl, op).1.Some? ==> Do(c, ttl, op).1.value.name == op.name
  {
  }

  /** The index can turn false with a truthful store and no writer but the decorator: a group write
      evicts the row it claims, a rename of that row then cannot clear the old name, and the old name
      goes on yielding the renamed row. */
  lemma OldNameLingers(ttl: int) returns (w: World, add: Op, update: Op)
    ensures Primed(w) && add.Add? && update.Update?
    ensures Legal(w.cache, ttl, add) && Legal(Step(w, ttl, add).cache, ttl, update)
    ensures var c := Step(Step(w, ttl, add), ttl, update).cache;
      var r := ByName(c, ttl, "old", 0, NotFound, map[]).1;
      r.Some? && r.value.name == "new"
  {
    var a, g := Row("a", "old", Chat, true, "", ""), Row("g", "g", Group, true, "a", "");
    var index := map["a" := "g"];
    w := PrimedWith(a);
    add, update := Add(g, index), Update("a", a.(name := "new"), index);
    var c1 := Added(w.cache, g, index);
    AddEvicts(w.cache, a, g, index);
    assert Legal(w.cache, ttl, add);
    RenameMisses(c1, a, g, "new", index);
    RenameIsLegal(c1, ttl, a, g, update);
  }

  lemma RenameIsLegal(c1: Cache, ttl: int, a: Row, g: Row, update: Op)
    requires update.Update? && ClaimIndex(Updated(c1, update.id, update.row, update.index).rows, update.index)
    ensures Legal(c1, ttl, update) && Do(c1, ttl, update).0 == Updated(c1, update.id, update.row, update.index)
  {
  }

  lemma AddEvicts(c: Cache, a: Row, g: Row, index: map<string, string>)
    requires c.rows == map[a.id := a] && c.names == map[a.name := a.id] && c.negNames == map[]
    requires g.IsGroup() && g.enabled && g.shadow == a.id != "" && g.id != a.id && g.name != a.name
    requires index == map[a.id := g.id]
    ensures var c1 := Added(c, g, index);
      && c1.rows == map[g.id := g] && c1.names == map[a.name := a.id, g.name := g.id] && c1.negNames == map[]
      && ClaimIndex(c1.rows, index)
  {
    var c1 := Added(c, g, index);
    assert Claimant(c1.rows, g.id, a.id);
  }

  lemma RenameMisses(c1: Cache, a: Row, g: Row, name: string, index: map<string, string>)
    requires c1.rows == map[g.id := g] && c1.names == map[a.name := a.id, g.name := g.id] && c1.negNames == map[]
    requires g.IsGroup() && g.enabled && g.shadow == a.id != "" && g.id != a.id && g.name != a.name
    requires index == map[a.id := g.id]
    requires !a.IsGroup() && name != a.name
    ensures var c2 := Updated(c1, a.id, a.(name := name), index);
      && c2.rows == map[g.id := g, a.id := a.(name := name)] && c2.negNames == map[]
      && a.name in c2.names && c2.names[a.name] == a.id && ClaimIndex(c2.rows, index)
  {
    var c2 := Updated(c1, a.id, a.(name := name), index);
    assert c2.rows == map[g.id := g, a.id := a.(name := name)];
    assert Claimant(c2.rows, g.id, a.id);
  }

  lemma PrimedWith(a: Row) returns (w: World)
    requires !a.IsGroup()
    ensures Primed(w) && w.absent == {} && w.cache.rows == map[a.id := a] && w.cache.names == map[a.name := a.id]
    ensures w.cache.neg == map[] == w.cache.negNames
  {
    var list := [a];
    assert list[..|list| - 1] == [] && ById([]) == map[] && ByNames([]) == map[];
    assert ById(list) == map[a.id := a] && ByNames(list) == map[a.name := a.id];
    w := World(Snapshot([a], map[], 0, map[]), {});
    assert OneRowPerId([a]) && ClaimIndex(ById([a]), map[]);
  }
}
