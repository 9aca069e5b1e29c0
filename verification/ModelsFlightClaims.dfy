/** Shadow claims when the sections of reads, writes and reconciler passes interleave: which section
    loses a claim, and what clients are told until one does. */
module ModelsFlightClaims {
  import opened ModelsCache
  import opened ModelsSafety
  import F = ModelsFlights

  /** A fill, of a read of any kind, installs a row that is no group over the indexed claimant of a
      contested id. */
  ghost predicate Upset(f: F.Flights, e: F.Event) {
    && e.Advance? && e.call in f.calls && f.calls[e.call].phase.Installing?
    && !f.calls[e.call].phase.row.IsGroup() && Contested(f.world.cache, f.calls[e.call].phase.row.id)
  }

  lemma FillKeepsClaimsIff(c: Cache, row: Row, index: map<string, string>)
    requires ClaimsComplete(c) && (row.IsGroup() ==> ClaimIndex(Filled(c, row, index).rows, index))
    ensures ClaimsComplete(Filled(c, row, index)) <==> row.IsGroup() || !Contested(c, row.id)
  {
    if row.IsGroup() {
      IndexIsComplete(Filled(c, row, index).rows, index);
    } else {
      PlainFillComplete(c, row, index);
    }
  }

  lemma AdvanceKeepsClaimsIff(f: F.Flights, ttl: int, e: F.Event)
    requires ClaimsComplete(f.world.cache) && F.Fits(f, ttl, e) && e.Advance?
    ensures ClaimsComplete(F.Step(f, ttl, e).world.cache) <==> !Upset(f, e)
  {
    var c := f.calls[e.call];
    if c.phase.Installing? {
      FillKeepsClaimsIff(f.world.cache, c.phase.row, e.index);
    } else {
      SameClaims(f.world.cache, F.Step(f, ttl, e).world.cache);
    }
  }

  /** The claim index stays complete in exactly the steps that do not upset a claim, whatever the
      store answers and however old an answer is when it is installed. */
  lemma ClaimsKeptIff(f: F.Flights, ttl: int, e: F.Event)
    requires ClaimsComplete(f.world.cache) && F.Fits(f, ttl, e)
    ensures ClaimsComplete(F.Step(f, ttl, e).world.cache) <==> !Upset(f, e)
  {
    match e {
      case Advance(_, _, _, _) => AdvanceKeepsClaimsIff(f, ttl, e);
      case Write(op, _) => RebuiltIsComplete(f.world.cache, ttl, op);
      case ScanApply(k, now, index) =>
        if f.scans[k].Believed? {
          IndexIsComplete(ById(f.scans[k].rows), index);
        } else {
          SameClaims(f.world.cache, F.Step(f, ttl, e).world.cache);
        }
      case _ =>
    }
  }

  /** An interleaving none of whose steps upsets a claim. */
  ghost predicate Calm(f: F.Flights, ttl: int, es: seq<F.Event>)
    decreases |es|
  {
    es != [] ==>
      if F.Fits(f, ttl, es[0]) then !Upset(f, es[0]) && Calm(F.Step(f, ttl, es[0]), ttl, es[1..])
      else Calm(f, ttl, es[1..])
  }

  /** The redirect of every id, as its claimants are cached. */
  ghost predicate RedirectsExactly(c: Cache) {
    forall id ::
      && (Redirect(c, id).Some? <==> Claimed(c.rows, id))
      && (Claimed(c.rows, id) ==> Claimant(c.rows, Redirect(c, id).value.id, id))
  }

  lemma CompleteRedirects(w: World)
    requires Base(w) && ClaimsComplete(w.cache)
    ensures RedirectsExactly(w.cache)
  {
    var c := w.cache;
    forall id
      ensures Redirect(c, id).Some? <==> Claimed(c.rows, id)
      ensures Claimed(c.rows, id) ==> Claimant(c.rows, Redirect(c, id).value.id, id)
    {
      if Redirect(c, id).Some? {
        assert Claimant(c.rows, c.claims[id], id);
        assert Claimed(c.rows, id);
      }
    }
  }

  /** At every moment of every calm interleaving an id is redirected exactly when a cached enabled group
      claims it, and then to one that does. */
  lemma {:induction false} CalmRunRedirects(f: F.Flights, ttl: int, es: seq<F.Event>, n: nat)
    requires F.FlightInv(f, ttl) && ttl >= 0 && ClaimsComplete(f.world.cache) && Calm(f, ttl, es) && n <= |es|
    ensures var w := F.Run(f, ttl, es[..n]).world; ClaimsComplete(w.cache) && RedirectsExactly(w.cache)
    decreases n
  {
    if n == 0 {
      CompleteRedirects(f.world);
    } else {
      var f' := if F.Fits(f, ttl, es[0]) then F.Step(f, ttl, es[0]) else f;
      if F.Fits(f, ttl, es[0]) {
        F.StepKeeps(f, ttl, es[0]);
        ClaimsKeptIff(f, ttl, es[0]);
      }
      assert es[..n][0] == es[0] && es[..n][1..] == es[1..][..n - 1];
      CalmRunRedirects(f', ttl, es[1..], n - 1);
    }
  }

  /** What a client read does at a moment of a calm interleaving, when it looks at the claims: it answers
      with a cached claimant if there is one, without the store; otherwise it goes on, and notes a
      denial only then. */
  lemma ClientMeetsClaimant(f: F.Flights, ttl: int, es: seq<F.Event>, n: nat, f1: F.Flights, e: F.Event)
    requires F.FlightInv(f, ttl) && ttl >= 0 && ClaimsComplete(f.world.cache) && Calm(f, ttl, es) && n <= |es|
    requires f1 == F.Run(f, ttl, es[..n]) && F.Fits(f1, ttl, e) && e.Advance?
    requires f1.calls[e.call].req.Client? && (f1.calls[e.call].phase.Claims? || f1.calls[e.call].phase.Rechecking?)
    ensures var c, f2 := f1.calls[e.call], F.Step(f1, ttl, e);
      var ph := f2.calls[e.call].phase;
      && f2.world == f1.world
      && if Claimed(f1.world.cache.rows, c.req.id) then
           ph.Done? && ph.reply.Some? && Claimant(f1.world.cache.rows, ph.reply.value.id, c.req.id)
         else ph == if c.phase.Claims? then F.Looking else F.Negating(c.phase.asked)
  {
    CalmRunRedirects(f, ttl, es, n);
  }

  /** Whatever interleaves, a client read comes to note a denial only from a section that saw no cached enabled
      group indexed for the id. */
  lemma DenialIsNotedUnclaimed(f: F.Flights, ttl: int, e: F.Event)
    requires F.Fits(f, ttl, e) && e.Advance? && f.calls[e.call].req.Client? && !f.calls[e.call].phase.Negating?
    requires F.Step(f, ttl, e).calls[e.call].phase.Negating?
    ensures var c, id := f.world.cache, f.calls[e.call].req.id;
      !(id in c.claims && c.claims[id] in c.rows && c.rows[c.claims[id]].enabled
        && c.rows[c.claims[id]].kind == Group)
  {
  }
}
