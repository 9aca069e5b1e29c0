/** A run that reaches the far side of the exact condition of the credential engine. */
module CredentialWitnesses {
  import opened WeightedPool
  import opened StickyPool
  import opened GroupWitnesses
  import E = CredentialEngine

  const NewModel := E.Model(Pool(Three, map[], 0), map[], E.Stats(0, 0, 0))

  const Bound := E.Model(Held.def, map[], E.Stats(0, 1, 0))

  lemma LookupBinds()
    ensures E.Select(NewModel, 10, "k", 0, Least()) == (Bound, Outcome("a", true, false, false))
  {
    LeastPicksFirst(Three);
    assert E.HasRow(NewModel, 10, "k", 0) == false;
    assert CoolingIds(map[], 0) == {};
    assert Drop(NewModel.pool, "k") == NewModel.pool;
    assert FreshIn(NewModel.pool, map[], "k", 0, false, Least()) == (Held.def, Outcome("a", true, false, false));
  }

  lemma IdleRowMoved()
    ensures E.Reselect(Bound, "k", "b", 60, 100, Second()) ==
      (Bound.(cooldowns := map["b" := 160]), "a", ReselectHealthy)
  {
    assert map[]["b" := 160] == map["b" := 160];
    assert !Cooling(map["b" := 160], "a", 100);
  }

  lemma SweptDraws()
    ensures E.Reselect(E.Do(Bound, 10, E.Sweep(100)).0, "k", "b", 60, 100, Second()).1 == "c"
    ensures E.Reselect(E.Do(Bound, 10, E.Sweep(100)).0, "k", "b", 60, 100, Second()).0.stats.failovers == 1
  {
    var idle := Idle(Bound.pool.bindings, 10, 100);
    assert idle == {"k"};
    assert Without(Bound.pool, idle) == NewModel.pool;
    var m := E.Do(Bound, 10, E.Sweep(100)).0;
    assert m.cooldowns == map[] && m.pool == NewModel.pool;
    assert CoolingIds(m.cooldowns["b" := 160], 100) == {"b"};
    SecondPicksThird(Three, {"b"});
  }

  /** A model of three credentials binds "k" to a. Long after, b fails for "k": the idle row answers a and
      nothing ticks; had the janitor passed just before, c would have been drawn and Failovers ticked. */
  lemma SweepChangesFailover() returns (m: E.Model)
    ensures E.Select(NewModel, 10, "k", 0, Least()) == (m, Outcome("a", true, false, false))
    ensures var r := E.Reselect(m, "k", "b", 60, 100, Second()); r.1 == "a" && r.0.stats.failovers == 0
    ensures var r := E.Reselect(E.Do(m, 10, E.Sweep(100)).0, "k", "b", 60, 100, Second());
      r.1 == "c" && r.0.stats.failovers == 1
  {
    m := Bound;
    LookupBinds();
    IdleRowMoved();
    SweptDraws();
  }
}
