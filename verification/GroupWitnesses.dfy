/** Runs that reach the far side of the exact conditions of the group engine. */
module GroupWitnesses {
  import opened Options
  import opened WeightedPool
  import opened StickyPool
  import opened GroupSections
  import opened GroupInterleaving
  import J = GroupJanitor

  // ------------------------------------------------------- a sweep changes a failover

  const Three := [MemberRef("a", 1.0, false), MemberRef("b", 1.0, false), MemberRef("c", 1.0, false)]

  /** The least draw, and one that falls on the second healthy member of two. */
  ghost function Least(): Rand {
    (t: real) => 0.0
  }

  ghost function Second(): Rand {
    var f := (t: real) => if t > 1.0 then 1.0 else 0.0;
    assert InRange(f);
    f
  }

  ghost predicate LikeThree(refs: seq<MemberRef>) {
    |refs| == 3 && (forall i | 0 <= i < 3 :: refs[i].id == Three[i].id && refs[i].weight == 1.0)
  }

  lemma LeastPicksFirst(refs: seq<MemberRef>)
    requires LikeThree(refs)
    ensures PickHealthy(refs, {}, Least()) == "a"
  {
    var r := 0.0;
    assert Sum(refs, {}, 0) == 0.0 && Sum(refs, {}, 1) == 1.0 && Sum(refs, {}, 2) == 2.0 && Sum(refs, {}, 3) == 3.0;
    assert Owns(refs, {}, 0, r);
    OwnerUnique(refs, {}, 0, Draw(refs, {}, r), r);
    assert !AllIn(refs, {}) by { assert refs[0].id !in {}; }
  }

  lemma SecondPicksThird(refs: seq<MemberRef>, out: set<string>)
    requires LikeThree(refs) && out == {"b"}
    ensures PickHealthy(refs, out, Second()) == "c"
  {
    var r := 1.0;
    assert Sum(refs, out, 0) == 0.0 && Sum(refs, out, 1) == 1.0 && Sum(refs, out, 2) == 1.0
        && Sum(refs, out, 3) == 2.0;
    assert Owns(refs, out, 2, r);
    OwnerUnique(refs, out, 2, Draw(refs, out, r), r);
    assert !AllIn(refs, out) by { assert refs[0].id !in out; }
  }

  /** "k" is bound to a, since time 0. */
  const Held := State(Three, Pool(Three, map["k" := Binding("a", 0)], 1), Pool([], map[], 0), map[])

  const Clean := State(Three, Pool(Three, map[], 0), Pool([], map[], 0), map[])

  lemma FirstLookupBinds()
    ensures J.GetNow(NewState(Three), 10, "k", 0, Least()) == (Held, Outcome("a", true, false, false))
  {
    AllOnOneSide(Three, false);
    assert NewState(Three) == Clean;
    LeastPicksFirst(Three);
    assert CoolingIds(map[], 0) == {};
    assert FreshIn(Clean.def, map[], "k", 0, false, Least()) == (Held.def, Outcome("a", true, false, false));
    assert Drop(Clean.def, "k") == Clean.def;
  }

  lemma IdleRowAnswers()
    ensures J.FailNow(Held, "k", "b", 60, 100, Second()).1 == "a"
  {
    assert InRefs(Three, "a") by { assert Three[0].id == "a"; }
    assert !Cooling(map[]["b" := 160], "a", 100);
  }

  lemma SweepCleans()
    ensures Swept(Held, 10, 100) == Clean
  {
    var idle := Idle(Held.def.bindings, 10, 100);
    assert idle == {"k"};
    assert Without(Held.def, idle) == Clean.def;
    assert Idle(Held.bak.bindings, 10, 100) == {};
    assert Without(Held.bak, {}) == Clean.bak;
  }

  lemma CleanFailoverDraws()
    ensures J.FailNow(Clean, "k", "b", 60, 100, Second()).1 == "c"
  {
    assert CoolingIds(map[]["b" := 160], 100) == {"b"};
    SecondPicksThird(Three, {"b"});
  }

  /** A new group of three binds "k" to a. Long after, b fails for "k": the shortcut answers the idle
      row's a; had the janitor passed just before, the failover would have drawn c. */
  lemma SweepChangesFailover() returns (s: State)
    ensures J.GetNow(NewState(Three), 10, "k", 0, Least()) == (s, Outcome("a", true, false, false))
    ensures J.FailNow(s, "k", "b", 60, 100, Second()).1 == "a"
    ensures J.FailNow(Swept(s, 10, 100), "k", "b", 60, 100, Second()).1 == "c"
  {
    s := Held;
    FirstLookupBinds();
    IdleRowAnswers();
    SweepCleans();
    CleanFailoverDraws();
  }

  const Spares := [MemberRef("a", 1.0, true), MemberRef("b", 1.0, true), MemberRef("c", 1.0, true)]
  const Main := MemberRef("d", 1.0, false)

  /** The same three as backups of a fourth. */
  const Backed := [Main] + Spares

  const BackupClean := State(Backed, Pool([Main], map[], 0), Pool(Spares, map[], 0), map[])

  const BackupHeld := State(Backed, Pool([Main], map[], 0), Pool(Spares, map["k" := Binding("a", 0)], 1), map[])

  lemma {:induction false} SideConcat(xs: seq<MemberRef>, ys: seq<MemberRef>, backup: bool)
    ensures Side(xs + ys, backup) == Side(xs, backup) + Side(ys, backup)
    decreases |ys|
  {
    if ys == [] {
      assert xs + ys == xs;
    } else {
      var init := ys[..|ys| - 1];
      SideConcat(xs, init, backup);
      assert (xs + ys)[..|xs + ys| - 1] == xs + init;
    }
  }

  lemma BackedGroup()
    ensures NewState(Backed) == BackupClean
  {
    AllOnOneSide(Spares, true);
    AllOnOneSide([Main], false);
    SideConcat([Main], Spares, false);
    SideConcat([Main], Spares, true);
  }

  lemma BackupLookupBinds()
    ensures J.GetBackupNow(NewState(Backed), 10, "k", 0, Least()) == (BackupHeld, Outcome("a", true, false, false))
  {
    BackedGroup();
    LeastPicksFirst(Spares);
    assert CoolingIds(map[], 0) == {};
    assert Drop(BackupClean.bak, "k") == BackupClean.bak;
    assert FreshIn(BackupClean.bak, map[], "k", 0, false, Least())
        == (BackupHeld.bak, Outcome("a", true, false, false));
  }

  lemma BackupSweepCleans()
    ensures Swept(BackupHeld, 10, 100) == BackupClean
  {
    var idle := Idle(BackupHeld.bak.bindings, 10, 100);
    assert idle == {"k"} && Without(BackupHeld.bak, idle) == BackupClean.bak;
    assert Idle(BackupHeld.def.bindings, 10, 100) == {} && Without(BackupHeld.def, {}) == BackupClean.def;
  }

  lemma BackupIdleRowAnswers()
    ensures J.FailBackupNow(BackupHeld, "k", "b", 60, 100, Second()).1 == "a"
  {
    assert InRefs(Backed, "a") by { assert Backed[1].id == "a"; }
    assert !Cooling(map[]["b" := 160], "a", 100);
  }

  lemma BackupCleanFailoverDraws()
    ensures J.FailBackupNow(BackupClean, "k", "b", 60, 100, Second()).1 == "c"
  {
    assert CoolingIds(map[]["b" := 160], 100) == {"b"};
    SecondPicksThird(Spares, {"b"});
  }

  /** The same story in the backup pool of a group of four. */
  lemma SweepChangesBackupFailover() returns (s: State)
    ensures J.GetBackupNow(NewState(Backed), 10, "k", 0, Least()) == (s, Outcome("a", true, false, false))
    ensures J.FailBackupNow(s, "k", "b", 60, 100, Second()).1 == "a"
    ensures J.FailBackupNow(Swept(s, 10, 100), "k", "b", 60, 100, Second()).1 == "c"
  {
    s := BackupHeld;
    BackupLookupBinds();
    BackupIdleRowAnswers();
    BackupSweepCleans();
    BackupCleanFailoverDraws();
  }

  lemma {:induction false} AllOnOneSide(refs: seq<MemberRef>, backup: bool)
    requires forall i | 0 <= i < |refs| :: refs[i].backupOnly == backup
    ensures Side(refs, backup) == refs && Side(refs, !backup) == []
  {
    if refs != [] {
      AllOnOneSide(refs[..|refs| - 1], backup);
      assert refs == refs[..|refs| - 1] + [refs[|refs| - 1]];
    }
  }

  // ------------------------------------------------ the backup fast path serves a cooling one

  const Pair := [MemberRef("a", 1.0, false), MemberRef("b", 1.0, true)]

  const Setup := Config(1000, 60)

  lemma PairSides()
    ensures Side(Pair, false) == [Pair[0]] && Side(Pair, true) == [Pair[1]]
  {
    assert Pair[..1] == [Pair[0]] && Pair[..1][..0] == [];
    assert Side([], false) == [] && Side([], true) == [];
    assert Side(Pair[..1], false) == [Pair[0]] && Side(Pair[..1], true) == [];
  }

  lemma {:induction false} RunOneMore(w: World, es: seq<Event>, e: Event)
    requires EventFits(Run(Setup, w, es), e)
    ensures Run(Setup, w, es + [e]) == Step(Setup, Run(Setup, w, es), e)
    decreases |es|
  {
    if es == [] {
      assert ([] + [e])[1..] == [];
    } else {
      assert (es + [e])[1..] == es[1..] + [e];
      RunOneMore(if EventFits(w, es[0]) then Step(Setup, w, es[0]) else w, es[1..], e);
    }
  }

  /** One more event of a run. */
  lemma Then(es: seq<Event>, w: World, e: Event) returns (es': seq<Event>, w': World)
    requires w == Run(Setup, Empty, es) && EventFits(w, e)
    ensures es' == es + [e] && w' == Run(Setup, Empty, es') == Step(Setup, w, e)
  {
    RunOneMore(Empty, es, e);
    es', w' := es + [e], Step(Setup, w, e);
  }

  const Bound := State(Pair, Pool([Pair[0]], map[], 0), Pool([Pair[1]], map["k" := Binding("b", 0)], 1), map[])

  /** A call looks its group up. */
  lemma LooksUp(es: seq<Event>, w: World, i: nat, req: Request, now: int) returns (es': seq<Event>, w': World)
    requires w == Run(Setup, Empty, es) && i !in w.calls && w.groups == map["g" := 0] && req.group == "g"
    ensures w' == Run(Setup, Empty, es')
    ensures w' == w.(calls := w.calls[i := Call(req, now,
        Running(0, if req.Get? || req.Fail? then Counting else Snapping))])
  {
    es', w' := Then(es, w, Begin(i, req, now));
    es', w' := Then(es', w', Advance(i, Least(), 0));
  }

  /** A call in a phase runs its section. */
  lemma Runs(es: seq<Event>, w: World, i: nat, ph: Phase, clock: int, s: State, s': State, r: Reply)
    returns (es': seq<Event>, w': World)
    requires w == Run(Setup, Empty, es) && i in w.calls && w.calls[i].pc == Running(0, ph)
    requires PhaseFits(w.calls[i].req, ph)
    requires w.heap == map[0 := s] && s.members != []
    requires (s', r) == Do(s, Setup.ttl, SectionOf(Setup, w.calls[i], ph, Least(), clock))
    ensures w' == Run(Setup, Empty, es') && w'.groups == w.groups && w'.heap == map[0 := s']
    ensures var next := Next(w.calls[i].req, r);
      var pc := if next.None? then Finished(SectionOf(Setup, w.calls[i], ph, Least(), clock), s)
          else Running(0, next.value);
      w'.calls == w.calls[i := w.calls[i].(pc := pc)]
  {
    es', w' := Then(es, w, Advance(i, Least(), clock));
  }

  const Unbound := State(Pair, Pool([Pair[0]], map[], 0), Pool([Pair[1]], map[], 0), map[])

  lemma Published() returns (es: seq<Event>, w: World)
    ensures w == Run(Setup, Empty, es) && w.groups == map["g" := 0] && w.heap == map[0 := Unbound] && w.calls == map[]
  {
    PairSides();
    es, w := Then([], Empty, Configure("g", Pair));
  }

  lemma SnapshotOfPair(s: State)
    requires s == Bound || s == Unbound
    ensures Do(s, Setup.ttl, BackupSnapshot) == (s, Snapshot(true, 1, Some("b")))
  {
  }

  lemma BindOfPair()
    ensures Do(Unbound, Setup.ttl, BackupFast("k", "b", 0)) == (Bound, Served(Outcome("b", true, false, false)))
  {
    assert map[]["k" := Binding("b", 0)] == map["k" := Binding("b", 0)];
  }

  /** The group is published and "k" is bound to its only backup. */
  lemma BindsBackup() returns (es: seq<Event>, w: World)
    ensures w == Run(Setup, Empty, es) && w.groups == map["g" := 0] && w.heap == map[0 := Bound] && w.calls.Keys == {0}
  {
    SnapshotOfPair(Unbound);
    BindOfPair();
    es, w := Published();
    es, w := LooksUp(es, w, 0, GetBackup("g", "k"), 0);
    es, w := Runs(es, w, 0, Snapping, 0, Unbound, Unbound, Snapshot(true, 1, Some("b")));
    es, w := Runs(es, w, 0, FastBackup("b"), 0, Unbound, Bound, Served(Outcome("b", true, false, false)));
  }

  const Cooled := Bound.(cooldowns := map["b" := 61])

  lemma MarkOfPair()
    ensures Do(Bound, Setup.ttl, BackupSingle("b", 60, 1)) == (Cooled, Marked(true))
  {
    assert map[]["b" := 61] == map["b" := 61];
  }

  const Renewed := Cooled.(bak := Pool([Pair[1]], map["k" := Binding("b", 5)], 1))

  lemma FastPathOfPair()
    ensures Do(Cooled, Setup.ttl, BackupFast("k", "b", 5)) == (Renewed, Served(Outcome("b", false, false, false)))
  {
    assert InRefs(Pair, "b") by { assert Pair[1].id == "b"; }
    assert map["k" := Binding("b", 0)]["k" := Binding("b", 5)] == map["k" := Binding("b", 5)];
  }

  /** Two calls have taken their snapshots: a lookup of "k" and the failure of b for another
      conversation. */
  lemma TwoSnapshots() returns (es: seq<Event>, w: World)
    ensures w == Run(Setup, Empty, es) && w.heap == map[0 := Bound]
    ensures 1 in w.calls && w.calls[1] == Call(GetBackup("g", "k"), 5, Running(0, FastBackup("b")))
    ensures 2 in w.calls && w.calls[2] == Call(FailBackup("g", "x", "b", 0), 1, Running(0, MarkingSingle))
  {
    SnapshotOfPair(Bound);
    es, w := BindsBackup();
    es, w := LooksUp(es, w, 1, GetBackup("g", "k"), 5);
    es, w := Runs(es, w, 1, Snapping, 0, Bound, Bound, Snapshot(true, 1, Some("b")));
    es, w := LooksUp(es, w, 2, FailBackup("g", "x", "b", 0), 1);
    es, w := Runs(es, w, 2, Snapping, 0, Bound, Bound, Snapshot(true, 1, Some("b")));
  }

  /** A later lookup of "k" takes its snapshot; before its fast path gets the lock, another call's
      failure marks b. */
  lemma MarkedInBetween() returns (es: seq<Event>, w: World)
    ensures w == Run(Setup, Empty, es) && w.heap == map[0 := Cooled]
    ensures 1 in w.calls && w.calls[1] == Call(GetBackup("g", "k"), 5, Running(0, FastBackup("b")))
  {
    MarkOfPair();
    es, w := TwoSnapshots();
    es, w := Runs(es, w, 2, MarkingSingle, 1, Bound, Cooled, Marked(true));
  }

  /** In a run from the empty engine a backup lookup is answered with a member that cools at the
      caller's time. */
  lemma BackupLookupServesCooling() returns (es: seq<Event>)
    ensures var w := Run(Setup, Empty, es);
      && 1 in w.calls && w.calls[1].req == GetBackup("g", "k") && w.calls[1].now == 5
      && w.calls[1].pc == Finished(BackupFast("k", "b", 5), Cooled)
      && AnswerOf(Setup, w.calls[1]) == "b" && Cooling(Cooled.cooldowns, "b", 5)
  {
    var w;
    es, w := MarkedInBetween();
    FastPathOfPair();
    es, w := Runs(es, w, 1, FastBackup("b"), 0, Cooled, Renewed, Served(Outcome("b", false, false, false)));
  }
}
