/** Weighted selection over one pool of group members (pkg/grouplb/selector.go and the
    picking half of pkg/grouplb/binding.go). Weights are reals; a random draw is a free
    input. */
module WeightedPool {
  import opened Options

  datatype MemberRef = MemberRef(id: string, weight: real, backupOnly: bool)

  /** The prebuilt prefix-sum selector. */
  datatype Selector = Selector(ids: seq<string>, prefix: seq<real>, total: real)

  ghost predicate InRange(f: real -> real) {
    forall t :: t > 0.0 ==> 0.0 <= f(t) < t
  }

  /** One random draw: for every total weight a point of [0, total). The source's
      rng.Float64()*total is the draw that scales one point of [0, 1). */
  type Rand = f: real -> real | InRange(f) witness (t: real) => 0.0

  /** member id -> the time its cooldown ends */
  type Cooldowns = map<string, int>

  predicate Positive(refs: seq<MemberRef>) {
    forall i | 0 <= i < |refs| :: refs[i].weight > 0.0
  }

  /** A selector exists for a list exactly when it is non-empty with positive weights. */
  predicate Selectable(refs: seq<MemberRef>) {
    refs != [] && Positive(refs)
  }

  ghost predicate InRefs(refs: seq<MemberRef>, id: string) {
    exists i :: 0 <= i < |refs| && refs[i].id == id
  }

  predicate Cooling(cds: Cooldowns, id: string, now: int) {
    id in cds && cds[id] > now
  }

  /** The ids that are out of the pool at `now`. */
  ghost function CoolingIds(cds: Cooldowns, now: int): set<string> {
    set id | id in cds && cds[id] > now
  }

  ghost predicate AllIn(refs: seq<MemberRef>, out: set<string>) {
    forall i | 0 <= i < |refs| :: refs[i].id in out
  }

  // --------------------------------------------------------- intervals and draws

  /** Weight of the first `n` entries, entries in `out` counting nothing. */
  ghost function Sum(refs: seq<MemberRef>, out: set<string>, n: nat): real
    requires n <= |refs|
  {
    if n == 0 then 0.0
    else Sum(refs, out, n - 1) + if refs[n - 1].id in out then 0.0 else refs[n - 1].weight
  }

  ghost function Total(refs: seq<MemberRef>, out: set<string>): real {
    Sum(refs, out, |refs|)
  }

  /** Position `i` owns the draw `r`: its interval has the entry's own weight as length,
      and is empty when the entry is out. */
  ghost predicate Owns(refs: seq<MemberRef>, out: set<string>, i: int, r: real) {
    0 <= i < |refs| && Sum(refs, out, i) <= r < Sum(refs, out, i + 1)
  }

  lemma {:induction false} SumMonotone(refs: seq<MemberRef>, out: set<string>, i: nat, j: nat)
    requires Positive(refs) && i <= j <= |refs|
    ensures Sum(refs, out, i) <= Sum(refs, out, j)
    decreases j
  {
    if i < j {
      SumMonotone(refs, out, i, j - 1);
    }
  }

  /** Somebody is in exactly when there is weight to draw from. */
  lemma {:induction false} SumPositive(refs: seq<MemberRef>, out: set<string>, n: nat)
    requires Positive(refs) && n <= |refs|
    ensures Sum(refs, out, n) >= 0.0
    ensures Sum(refs, out, n) > 0.0 <==> !AllIn(refs[..n], out)
  {
    if n > 0 {
      SumPositive(refs, out, n - 1);
      assert refs[..n] == refs[..n - 1] + [refs[n - 1]];
    }
  }

  lemma {:induction false} OwnerExists(refs: seq<MemberRef>, out: set<string>, n: nat, r: real)
    requires n <= |refs| && 0.0 <= r < Sum(refs, out, n)
    ensures exists i :: Owns(refs, out, i, r)
  {
    if Sum(refs, out, n - 1) <= r {
      assert Owns(refs, out, n - 1, r);
    } else {
      OwnerExists(refs, out, n - 1, r);
    }
  }

  /** Intervals never overlap, so the owner of a draw is unique. */
  lemma OwnerUnique(refs: seq<MemberRef>, out: set<string>, i: int, j: int, r: real)
    requires Positive(refs) && Owns(refs, out, i, r) && Owns(refs, out, j, r)
    ensures i == j
  {
    if i < j {
      SumMonotone(refs, out, i + 1, j);
    } else if j < i {
      SumMonotone(refs, out, j + 1, i);
    }
  }

  /** The position that owns the draw. */
  ghost function Draw(refs: seq<MemberRef>, out: set<string>, r: real): (i: int)
    requires 0.0 <= r < Total(refs, out)
    ensures Owns(refs, out, i, r)
  {
    OwnerExists(refs, out, |refs|, r);
    var i :| Owns(refs, out, i, r);
    i
  }

  /** No other entry carries the id of entry `i`. */
  ghost predicate Unambiguous(refs: seq<MemberRef>, i: int) {
    0 <= i < |refs| && forall j | 0 <= j < |refs| && j != i :: refs[j].id != refs[i].id
  }

  /** Fairness: with an id of its own, the draws that select a healthy entry `i` are exactly a
      half-open interval of length `refs[i].weight` inside the range of draws. */
  lemma DrawShare(refs: seq<MemberRef>, out: set<string>, i: int, r: real)
    requires Positive(refs) && Unambiguous(refs, i) && refs[i].id !in out
    requires 0.0 <= r < Total(refs, out)
    ensures refs[Draw(refs, out, r)].id == refs[i].id
      <==> Sum(refs, out, i) <= r < Sum(refs, out, i) + refs[i].weight
    ensures 0.0 <= Sum(refs, out, i) && Sum(refs, out, i) + refs[i].weight <= Total(refs, out)
  {
    SumMonotone(refs, out, 0, i);
    SumMonotone(refs, out, i + 1, |refs|);
    var d := Draw(refs, out, r);
    if Owns(refs, out, i, r) {
      OwnerUnique(refs, out, i, d, r);
    } else {
      assert d != i;
    }
  }

  // ------------------------------------------------------------------ selector

  ghost predicate SelectorFor(sel: Selector, refs: seq<MemberRef>) {
    && |sel.ids| == |sel.prefix| == |refs|
    && sel.total == Total(refs, {})
    && (forall i | 0 <= i < |refs| :: sel.ids[i] == refs[i].id)
    && (forall i | 0 <= i < |refs| :: sel.prefix[i] == Sum(refs, {}, i + 1))
  }

  method NewSelector(refs: seq<MemberRef>) returns (sel: Option<Selector>)
    ensures sel.Some? <==> Selectable(refs)
    ensures sel.Some? ==> SelectorFor(sel.value, refs)
  {
    if |refs| == 0 {
      return None;
    }
    var ids, prefix, total := [], [], 0.0;
    var i := 0;
    while i < |refs|
      invariant 0 <= i <= |refs|
      invariant |ids| == |prefix| == i && total == Sum(refs, {}, i)
      invariant forall k | 0 <= k < i :: refs[k].weight > 0.0
      invariant forall k | 0 <= k < i :: ids[k] == refs[k].id
      invariant forall k | 0 <= k < i :: prefix[k] == Sum(refs, {}, k + 1)
    {
      if refs[i].weight <= 0.0 {
        return None;
      }
      total := total + refs[i].weight;
      prefix := prefix + [total];
      ids := ids + [refs[i].id];
      i := i + 1;
    }
    return Some(Selector(ids, prefix, total));
  }

  /** Binary search for the first prefix above `r`: it finds the owner of the draw. */
  method Pick(sel: Selector, r: real, ghost refs: seq<MemberRef>) returns (id: string)
    requires SelectorFor(sel, refs) && Selectable(refs) && 0.0 <= r < sel.total
    ensures id == refs[Draw(refs, {}, r)].id
  {
    var lo, hi := 0, |sel.prefix| - 1;
    ghost var d := Draw(refs, {}, r);
    while lo < hi
      invariant 0 <= lo <= d <= hi < |refs|
    {
      var mid := (lo + hi) / 2;
      if sel.prefix[mid] > r {
        if mid < d { SumMonotone(refs, {}, mid + 1, d); }
        hi := mid;
      } else {
        if d <= mid { SumMonotone(refs, {}, d + 1, mid + 1); }
        lo := mid + 1;
      }
    }
    return sel.ids[lo];
  }

  // ------------------------------------------------------- picking among the healthy

  /** The weighted pick among the members that are not out, renormalised: "" when the list
      has no selector or everybody is out. No prebuilt selector, no hot path, no loop. */
  ghost function PickHealthy(refs: seq<MemberRef>, out: set<string>, u: Rand): string {
    if !Selectable(refs) then ""
    else
      SumPositive(refs, out, |refs|);
      assert refs[..|refs|] == refs;
      if AllIn(refs, out) then ""
      else
        refs[Draw(refs, out, u(Total(refs, out)))].id
  }

  /** A pick is a healthy entry; with named entries there is none exactly when nobody can be picked. */
  lemma PickFacts(refs: seq<MemberRef>, out: set<string>, u: Rand)
    ensures var id := PickHealthy(refs, out, u);
      && (id != "" ==> InRefs(refs, id) && id !in out)
      && (!InRefs(refs, "") ==> (id == "" <==> !Selectable(refs) || AllIn(refs, out)))
  {
    if Selectable(refs) && !AllIn(refs, out) {
      SumPositive(refs, out, |refs|);
      assert refs[..|refs|] == refs;
      var i := Draw(refs, out, u(Total(refs, out)));
      assert refs[i].id == PickHealthy(refs, out, u);
    }
  }

  /** pickHealthyLocked: the binary-search hot path when there are no cooldown rows, the
      two-loop renormalised walk otherwise. Both compute the same pick. */
  method PickHealthyLocked(sel: Option<Selector>, refs: seq<MemberRef>, cds: Cooldowns, now: int, u: Rand)
    returns (id: string)
    requires sel.Some? <==> Selectable(refs)
    requires sel.Some? ==> SelectorFor(sel.value, refs)
    ensures id == PickHealthy(refs, CoolingIds(cds, now), u)
  {
    ghost var out := CoolingIds(cds, now);
    if sel.None? {
      return "";
    }
    SumPositive(refs, {}, |refs|);
    SumPositive(refs, out, |refs|);
    assert refs[..|refs|] == refs && refs[0].id !in {};
    if |cds| == 0 {
      assert out == {};
      id := Pick(sel.value, u(sel.value.total), refs);
      return;
    }
    id := RenormalisedWalk(refs, cds, now, u);
  }

  method RenormalisedWalk(refs: seq<MemberRef>, cds: Cooldowns, now: int, u: Rand) returns (id: string)
    requires Selectable(refs)
    ensures id == PickHealthy(refs, CoolingIds(cds, now), u)
  {
    ghost var out := CoolingIds(cds, now);
    var total, i := 0.0, 0;
    while i < |refs|
      invariant 0 <= i <= |refs|
      invariant total == Sum(refs, out, i)
    {
      if !Cooling(cds, refs[i].id, now) {
        total := total + refs[i].weight;
      }
      i := i + 1;
    }
    SumPositive(refs, out, |refs|);
    assert refs[..|refs|] == refs;
    if total <= 0.0 {
      return "";
    }
    var r := u(total);
    var cum := 0.0;
    i := 0;
    while i < |refs|
      invariant 0 <= i <= |refs|
      invariant cum == Sum(refs, out, i) <= r
    {
      if !Cooling(cds, refs[i].id, now) {
        cum := cum + refs[i].weight;
        if r < cum {
          OwnerUnique(refs, out, i, Draw(refs, out, r), r);
          return refs[i].id;
        }
      }
      i := i + 1;
    }
    return "";
  }

  /** The list with the out entries removed. */
  ghost function Filtered(refs: seq<MemberRef>, out: set<string>, n: nat): (f: seq<MemberRef>)
    requires n <= |refs|
    ensures |f| <= n && (Positive(refs) ==> Positive(f))
    ensures f == [] <==> AllIn(refs[..n], out)
  {
    if n == 0 then []
    else
      assert refs[..n] == refs[..n - 1] + [refs[n - 1]];
      var f := Filtered(refs, out, n - 1);
      if refs[n - 1].id in out then f else f + [refs[n - 1]]
  }

  lemma {:induction false} SumAppend(f: seq<MemberRef>, x: MemberRef, n: nat)
    requires n <= |f|
    ensures Sum(f + [x], {}, n) == Sum(f, {}, n)
  {
    if n > 0 {
      SumAppend(f, x, n - 1);
    }
  }

  lemma OwnsAppend(f: seq<MemberRef>, x: MemberRef, k: int, r: real)
    requires Owns(f, {}, k, r)
    ensures Owns(f + [x], {}, k, r)
  {
    SumAppend(f, x, k);
    SumAppend(f, x, k + 1);
  }

  /** Owners correspond: an interval of the walk with holes is an interval of the filtered list. */
  lemma {:induction false} FilteredIntervals(refs: seq<MemberRef>, out: set<string>, n: nat, i: int, r: real)
    returns (k: int)
    requires n <= |refs| && 0 <= i < n && Owns(refs, out, i, r)
    ensures var f := Filtered(refs, out, n); Owns(f, {}, k, r) && f[k] == refs[i]
    decreases n
  {
    var f := Filtered(refs, out, n - 1);
    if i == n - 1 {
      FilteredTotal(refs, out, n - 1);
      SumAppend(f, refs[i], |f|);
      k := |f|;
    } else {
      k := FilteredIntervals(refs, out, n - 1, i, r);
      if refs[n - 1].id !in out {
        OwnsAppend(f, refs[n - 1], k, r);
      }
    }
  }

  lemma {:induction false} FilteredTotal(refs: seq<MemberRef>, out: set<string>, n: nat)
    requires n <= |refs|
    ensures var f := Filtered(refs, out, n); Sum(f, {}, |f|) == Sum(refs, out, n)
  {
    if n > 0 {
      FilteredTotal(refs, out, n - 1);
      if refs[n - 1].id !in out {
        var f := Filtered(refs, out, n - 1);
        SumAppend(f, refs[n - 1], |f|);
      }
    }
  }

  /** Skipping the cooling members while walking picks what a selector built over the
      filtered list would pick, for every draw. */
  lemma RenormalisedEqualsFiltered(refs: seq<MemberRef>, out: set<string>, u: Rand)
    requires Selectable(refs)
    ensures PickHealthy(refs, out, u) == PickHealthy(Filtered(refs, out, |refs|), {}, u)
  {
    var f := Filtered(refs, out, |refs|);
    assert refs[..|refs|] == refs;
    if f != [] {
      FilteredTotal(refs, out, |refs|);
      SumPositive(refs, out, |refs|);
      assert f[0].id !in {};
      var r := u(Total(refs, out));
      var k := FilteredIntervals(refs, out, |refs|, Draw(refs, out, r), r);
      OwnerUnique(f, {}, k, Draw(f, {}, r), r);
    }
  }

  // ------------------------------------------------------------- soonest expiry

  ghost predicate AllCooling(refs: seq<MemberRef>, cds: Cooldowns, now: int) {
    forall i | 0 <= i < |refs| :: Cooling(cds, refs[i].id, now)
  }

  /** Among the first `n` entries, position `i` expires first, ties to the lower position. */
  ghost predicate ExpiresFirst(refs: seq<MemberRef>, cds: Cooldowns, n: int, i: int) {
    && 0 <= i < n <= |refs| && refs[i].id in cds
    && (forall j | 0 <= j < n && refs[j].id in cds :: cds[refs[i].id] <= cds[refs[j].id])
    && (forall j | 0 <= j < i && refs[j].id in cds :: cds[refs[i].id] < cds[refs[j].id])
  }

  lemma {:induction false} FirstToExpireExists(refs: seq<MemberRef>, cds: Cooldowns, n: nat)
    requires 0 < n <= |refs| && forall k | 0 <= k < n :: refs[k].id in cds
    ensures exists i :: ExpiresFirst(refs, cds, n, i)
  {
    if n == 1 {
      assert ExpiresFirst(refs, cds, n, 0);
    } else {
      FirstToExpireExists(refs, cds, n - 1);
      var i :| ExpiresFirst(refs, cds, n - 1, i);
      assert ExpiresFirst(refs, cds, n, if cds[refs[n - 1].id] < cds[refs[i].id] then n - 1 else i);
    }
  }

  /** "" unless the whole non-empty pool cools; else the id that becomes available first. */
  ghost function Soonest(refs: seq<MemberRef>, cds: Cooldowns, now: int): string {
    if refs == [] || !AllCooling(refs, cds, now) then ""
    else
      assert forall k | 0 <= k < |refs| :: Cooling(cds, refs[k].id, now);
      FirstToExpireExists(refs, cds, |refs|);
      var i :| ExpiresFirst(refs, cds, |refs|, i);
      refs[i].id
  }

  lemma SoonestFacts(refs: seq<MemberRef>, cds: Cooldowns, now: int)
    ensures var id := Soonest(refs, cds, now);
      && (id != "" ==> InRefs(refs, id) && AllCooling(refs, cds, now))
      && (id != "" ==> exists i :: ExpiresFirst(refs, cds, |refs|, i) && refs[i].id == id)
      && (!InRefs(refs, "") ==> (id != "" <==> refs != [] && AllCooling(refs, cds, now)))
  {
  }

  method SoonestLocked(refs: seq<MemberRef>, cds: Cooldowns, now: int) returns (id: string, all: bool)
    requires !InRefs(refs, "")
    ensures id == Soonest(refs, cds, now)
    ensures all <==> id != ""
  {
    id, all := "", false;
    var until := 0;
    ghost var best := 0;
    var i := 0;
    while i < |refs|
      invariant 0 <= i <= |refs|
      invariant forall k | 0 <= k < i :: Cooling(cds, refs[k].id, now)
      invariant id == "" <==> i == 0
      invariant i > 0 ==> ExpiresFirst(refs, cds, i, best) && id == refs[best].id && until == cds[id]
    {
      if !Cooling(cds, refs[i].id, now) {
        return "", false;
      }
      assert InRefs(refs, refs[i].id);
      if id == "" || cds[refs[i].id] < until {
        best := i;
        id, until := refs[i].id, cds[refs[i].id];
      }
      i := i + 1;
    }
    all := id != "";
  }
}
