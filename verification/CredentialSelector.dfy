/** Integer-weighted selection over a model's credentials (pkg/credentiallb/selector.go and the
    picking half of pkg/credentiallb/binding.go), and its exact fairness. */
module CredentialSelector {
  import opened Options
  import W = WeightedPool

  datatype CredentialRef = CredentialRef(id: string, weight: int)

  datatype Selector = Selector(ids: seq<string>, prefix: seq<int>, total: int)

  predicate Selectable(refs: seq<CredentialRef>) {
    refs != [] && forall i | 0 <= i < |refs| :: refs[i].weight > 0
  }

  /** Weight of the first `n` entries, entries in `out` counting nothing. */
  ghost function Sum(refs: seq<CredentialRef>, out: set<string>, n: nat): int
    requires n <= |refs|
  {
    if n == 0 then 0 else Sum(refs, out, n - 1) + if refs[n - 1].id in out then 0 else refs[n - 1].weight
  }

  ghost predicate Owns(refs: seq<CredentialRef>, out: set<string>, i: int, r: int) {
    0 <= i < |refs| && Sum(refs, out, i) <= r < Sum(refs, out, i + 1)
  }

  lemma {:induction false} SumMonotone(refs: seq<CredentialRef>, out: set<string>, i: nat, j: nat)
    requires Selectable(refs) && i <= j <= |refs|
    ensures Sum(refs, out, i) <= Sum(refs, out, j)
    decreases j
  {
    if i < j {
      SumMonotone(refs, out, i, j - 1);
    }
  }

  lemma OwnerUnique(refs: seq<CredentialRef>, out: set<string>, i: int, j: int, r: int)
    requires Selectable(refs) && Owns(refs, out, i, r) && Owns(refs, out, j, r)
    ensures i == j
  {
    if i < j {
      SumMonotone(refs, out, i + 1, j);
    } else if j < i {
      SumMonotone(refs, out, j + 1, i);
    }
  }

  lemma {:induction false} OwnerExists(refs: seq<CredentialRef>, out: set<string>, n: nat, r: int)
    requires n <= |refs| && 0 <= r < Sum(refs, out, n)
    ensures exists i :: Owns(refs, out, i, r)
  {
    if Sum(refs, out, n - 1) <= r {
      assert Owns(refs, out, n - 1, r);
    } else {
      OwnerExists(refs, out, n - 1, r);
    }
  }

  /** The entry whose interval contains the draw. */
  ghost function Draw(refs: seq<CredentialRef>, out: set<string>, r: int): (i: int)
    requires 0 <= r < Sum(refs, out, |refs|)
    ensures Owns(refs, out, i, r)
  {
    OwnerExists(refs, out, |refs|, r);
    var i :| Owns(refs, out, i, r);
    i
  }

  ghost predicate SelectorFor(sel: Selector, refs: seq<CredentialRef>) {
    && |sel.ids| == |sel.prefix| == |refs| && sel.total == Sum(refs, {}, |refs|)
    && (forall i | 0 <= i < |refs| :: sel.ids[i] == refs[i].id)
    && (forall i | 0 <= i < |refs| :: sel.prefix[i] == Sum(refs, {}, i + 1))
  }

  method NewSelector(refs: seq<CredentialRef>) returns (sel: Option<Selector>)
    ensures sel.Some? <==> Selectable(refs)
    ensures sel.Some? ==> SelectorFor(sel.value, refs)
  {
    if |refs| == 0 {
      return None;
    }
    var ids, prefix, total := [], [], 0;
    for i := 0 to |refs|
      invariant |ids| == |prefix| == i && total == Sum(refs, {}, i)
      invariant forall k | 0 <= k < i :: refs[k].weight > 0
      invariant forall k | 0 <= k < i :: ids[k] == refs[k].id
      invariant forall k | 0 <= k < i :: prefix[k] == Sum(refs, {}, k + 1)
    {
      if refs[i].weight <= 0 {
        return None;
      }
      total := total + refs[i].weight;
      prefix, ids := prefix + [total], ids + [refs[i].id];
    }
    return Some(Selector(ids, prefix, total));
  }

  /** The binary search finds the owner of the draw. */
  method Pick(sel: Selector, r: int, ghost refs: seq<CredentialRef>) returns (id: string)
    requires SelectorFor(sel, refs) && Selectable(refs) && 0 <= r < sel.total
    ensures id == refs[Draw(refs, {}, r)].id
  {
    var lo, hi := 0, |sel.prefix| - 1;
    ghost var d := Draw(refs, {}, r);
    while lo < hi
      invariant 0 <= lo <= d <= hi < |refs|
    {
      var mid := (lo + hi) / 2;
      if sel.prefix[mid] > r {
        if mid < d { SumMonotone(refs, {}, mid + 1, d); }
        hi := mid;
      } else {
        if d <= mid { SumMonotone(refs, {}, d + 1, mid + 1); }
        lo := mid + 1;
      }
    }
    return sel.ids[lo];
  }

  /** The renormalised walk over the credentials that are not cooling. `r` is the draw that
      rng.Intn(total) makes once the healthy total is known. */
  method Walk(refs: seq<CredentialRef>, cds: W.Cooldowns, now: int, r: int) returns (id: string)
    requires Selectable(refs) && 0 <= r < Sum(refs, W.CoolingIds(cds, now), |refs|)
    ensures id == refs[Draw(refs, W.CoolingIds(cds, now), r)].id
  {
    ghost var out := W.CoolingIds(cds, now);
    var cum := 0;
    for i := 0 to |refs|
      invariant cum == Sum(refs, out, i) <= r
    {
      if !W.Cooling(cds, refs[i].id, now) {
        cum := cum + refs[i].weight;
        if r < cum {
          OwnerUnique(refs, out, i, Draw(refs, out, r), r);
          return refs[i].id;
        }
      }
    }
    assert false;
    return "";
  }

  /** The integers a <= r < b. */
  ghost function Interval(a: int, b: int): (s: set<int>)
    requires a <= b
    ensures |s| == b - a && forall r :: r in s <==> a <= r < b
    decreases b - a
  {
    if a == b then {} else Interval(a, b - 1) + {b - 1}
  }

  lemma DrawIff(refs: seq<CredentialRef>, out: set<string>, i: nat, r: int)
    requires Selectable(refs) && i < |refs| && 0 <= r < Sum(refs, out, |refs|)
    ensures Draw(refs, out, r) == i <==> Sum(refs, out, i) <= r < Sum(refs, out, i + 1)
  {
    if Owns(refs, out, i, r) {
      OwnerUnique(refs, out, i, Draw(refs, out, r), r);
    }
  }

  /** Exactly `weight` of the `total` equally likely draws select a healthy credential. */
  lemma ExactShare(refs: seq<CredentialRef>, out: set<string>, i: nat)
    requires Selectable(refs) && i < |refs| && refs[i].id !in out
    ensures |set r | 0 <= r < Sum(refs, out, |refs|) && Draw(refs, out, r) == i| == refs[i].weight
  {
    var a, b, total := Sum(refs, out, i), Sum(refs, out, i + 1), Sum(refs, out, |refs|);
    SumMonotone(refs, out, 0, i);
    SumMonotone(refs, out, i + 1, |refs|);
    assert (set r | 0 <= r < total && Draw(refs, out, r) == i) == Interval(a, b) by {
      forall r | 0 <= r < total ensures Draw(refs, out, r) == i <==> r in Interval(a, b) {
        DrawIff(refs, out, i, r);
      }
    }
  }

  // ------------------------------------------------- integers inside the real pool

  function Embed(refs: seq<CredentialRef>): seq<W.MemberRef> {
    seq(|refs|, i requires 0 <= i < |refs| => W.MemberRef(refs[i].id, refs[i].weight as real, false))
  }

  lemma {:induction false} EmbedSum(refs: seq<CredentialRef>, out: set<string>, n: nat)
    requires n <= |refs|
    ensures W.Sum(Embed(refs), out, n) == Sum(refs, out, n) as real
  {
    if n > 0 {
      EmbedSum(refs, out, n - 1);
    }
  }

  /** An integer draw picks in the real-weighted pool what it picks in the integer one. */
  lemma EmbeddedDraw(refs: seq<CredentialRef>, out: set<string>, r: int)
    requires Selectable(refs) && 0 <= r < Sum(refs, out, |refs|)
    ensures 0.0 <= r as real < W.Total(Embed(refs), out)
    ensures W.Draw(Embed(refs), out, r as real) == Draw(refs, out, r)
  {
    EmbedSum(refs, out, |refs|);
    var i := Draw(refs, out, r);
    EmbedSum(refs, out, i);
    EmbedSum(refs, out, i + 1);
    W.OwnerUnique(Embed(refs), out, i, W.Draw(Embed(refs), out, r as real), r as real);
  }
}
