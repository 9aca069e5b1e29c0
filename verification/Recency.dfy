/** What a bounded least-recently-used map is: a sequence of distinct keys, most recent first. */
module Recency {
  import opened Options

  ghost predicate Distinct<V>(s: seq<(string, V)>) {
    forall i, j | 0 <= i < j < |s| :: s[i].0 != s[j].0
  }

  function Find<V>(s: seq<(string, V)>, k: string): Option<V> {
    if s == [] then None else if s[0].0 == k then Some(s[0].1) else Find(s[1..], k)
  }

  function Removed<V>(s: seq<(string, V)>, k: string): seq<(string, V)> {
    if s == [] then [] else if s[0].0 == k then Removed(s[1..], k) else [s[0]] + Removed(s[1..], k)
  }

  function Take<V>(s: seq<(string, V)>, n: nat): seq<(string, V)> {
    if |s| <= n then s else s[..n]
  }

  /** The most recent keys, `k` first, as many as fit. */
  function Put<V>(s: seq<(string, V)>, k: string, v: V, cap: nat): seq<(string, V)> {
    Take([(k, v)] + Removed(s, k), cap)
  }

  function Touched<V>(s: seq<(string, V)>, k: string): seq<(string, V)> {
    var f := Find(s, k);
    if f.None? then s else [(k, f.value)] + Removed(s, k)
  }

  // ------------------------------------------------------------------------- facts

  lemma {:induction false} FindFacts<V>(s: seq<(string, V)>, k: string)
    ensures Find(s, k).None? <==> forall i | 0 <= i < |s| :: s[i].0 != k
    ensures Find(s, k).Some? ==> (k, Find(s, k).value) in s
  {
    if s != [] && s[0].0 != k {
      FindFacts(s[1..], k);
      assert forall i | 1 <= i < |s| :: s[i] == s[1..][i - 1];
    }
  }

  lemma {:induction false} FindAt<V>(s: seq<(string, V)>, i: nat)
    requires i < |s| && Distinct(s)
    ensures Find(s, s[i].0) == Some(s[i].1)
  {
    if i > 0 {
      FindAt(s[1..], i - 1);
    }
  }

  lemma {:induction false} RemovedAbsent<V>(s: seq<(string, V)>, k: string)
    requires forall i | 0 <= i < |s| :: s[i].0 != k
    ensures Removed(s, k) == s
  {
    if s != [] {
      RemovedAbsent(s[1..], k);
    }
  }

  lemma {:induction false} RemovedAt<V>(s: seq<(string, V)>, i: nat)
    requires i < |s| && Distinct(s)
    ensures Removed(s, s[i].0) == s[..i] + s[i + 1..]
  {
    var k := s[i].0;
    if i == 0 {
      RemovedAbsent(s[1..], k);
    } else {
      RemovedAt(s[1..], i - 1);
      assert s[..i] + s[i + 1..] == [s[0]] + (s[1..][..i - 1] + s[1..][i..]);
    }
  }

  /** Removing forgets one key and nothing else. */
  lemma {:induction false} RemovedFacts<V>(s: seq<(string, V)>, k: string, k': string)
    ensures Find(Removed(s, k), k') == if k' == k then None else Find(s, k')
    ensures |Removed(s, k)| <= |s|
    ensures Distinct(s) ==> Distinct(Removed(s, k)) && |Removed(s, k)| == |s| - if Find(s, k).Some? then 1 else 0
  {
    if s != [] {
      RemovedFacts(s[1..], k, k');
      if Distinct(s) {
        FindFacts(s, k);
        if Find(s, k).None? {
          RemovedAbsent(s, k);
        } else {
          var i :| 0 <= i < |s| && s[i] == (k, Find(s, k).value);
          RemovedAt(s, i);
        }
      }
    }
  }

  lemma {:induction false} TakeKeepsFinds<V>(s: seq<(string, V)>, n: nat, k: string)
    ensures Find(Take(s, n), k).Some? ==> Find(Take(s, n), k) == Find(s, k)
  {
    if s != [] && n > 0 && s[0].0 != k {
      assert Take(s, n)[1..] == Take(s[1..], n - 1);
      TakeKeepsFinds(s[1..], n - 1, k);
    }
  }

  /** A put is found; what else is found was there before, unchanged; the bound holds. */
  lemma PutFacts<V>(s: seq<(string, V)>, k: string, v: V, cap: nat, k': string)
    requires Distinct(s) && 1 <= cap
    ensures var s' := Put(s, k, v, cap);
      && Distinct(s') && |s'| <= cap
      && Find(s', k) == Some(v)
      && (k' != k && Find(s', k').Some? ==> Find(s', k') == Find(s, k'))
  {
    var t := [(k, v)] + Removed(s, k);
    RemovedFacts(s, k, k);
    RemovedFacts(s, k, k');
    FindFacts(Removed(s, k), k);
    TakeKeepsFinds(t, cap, k');
    assert t[1..] == Removed(s, k);
    assert Take(t, cap)[0] == (k, v);
  }

  /** Eviction is exact: a put loses another key only when it adds a key to a full map, and then
      it loses the least recent one, alone. */
  lemma PutEvictsOnlyLeastRecent<V>(s: seq<(string, V)>, k: string, v: V, cap: nat)
    requires Distinct(s) && 1 <= cap && |s| <= cap
    ensures Put(s, k, v, cap)
      == [(k, v)] + if Find(s, k).None? && |s| == cap then s[..cap - 1] else Removed(s, k)
    ensures Find(s, k).None? ==> Removed(s, k) == s
  {
    FindFacts(s, k);
    RemovedFacts(s, k, k);
    if Find(s, k).None? {
      RemovedAbsent(s, k);
    }
  }

  // ------------------------------------------------------------ how long a key survives

  ghost function Keys<V>(s: seq<(string, V)>): set<string> {
    set i | 0 <= i < |s| :: s[i].0
  }

  lemma KeysConcat<V>(s: seq<(string, V)>, t: seq<(string, V)>)
    ensures Keys(s + t) == Keys(s) + Keys(t)
  {
    var st := s + t;
    forall k | k in Keys(s) + Keys(t) ensures k in Keys(st) {
      if k in Keys(s) {
        var i :| 0 <= i < |s| && s[i].0 == k;
        assert st[i].0 == k;
      } else {
        var i :| 0 <= i < |t| && t[i].0 == k;
        assert st[|s| + i].0 == k;
      }
    }
  }

  lemma KeysCons<V>(x: (string, V), t: seq<(string, V)>)
    ensures Keys([x] + t) == {x.0} + Keys(t)
  {
    assert [x][0].0 == x.0;
    assert Keys([x]) == {x.0};
    KeysConcat([x], t);
  }

  lemma KeysUncons<V>(above: set<string>, xs: seq<(string, V)>)
    requires xs != []
    ensures above + Keys(xs) == (above + {xs[0].0}) + Keys(xs[1..])
  {
    KeysCons(xs[0], xs[1..]);
    assert xs == [xs[0]] + xs[1..];
  }

  function PutAll<V>(s: seq<(string, V)>, xs: seq<(string, V)>, cap: nat): seq<(string, V)>
    decreases |xs|
  {
    if xs == [] then s else PutAll(Put(s, xs[0].0, xs[0].1, cap), xs[1..], cap)
  }

  lemma {:induction false} AbsentStaysAbsent<V>(s: seq<(string, V)>, xs: seq<(string, V)>, cap: nat, k: string)
    requires Distinct(s) && 1 <= cap && Find(s, k).None? && forall i | 0 <= i < |xs| :: xs[i].0 != k
    ensures Find(PutAll(s, xs, cap), k).None?
    decreases |xs|
  {
    if xs != [] {
      PutFacts(s, xs[0].0, xs[0].1, cap, k);
      AbsentStaysAbsent(Put(s, xs[0].0, xs[0].1, cap), xs[1..], cap, k);
    }
  }

  lemma {:induction false} DistinctKeys<V>(s: seq<(string, V)>)
    requires Distinct(s)
    ensures |Keys(s)| == |s|
  {
    if s != [] {
      DistinctKeys(s[1..]);
      assert s == [s[0]] + s[1..];
      assert Keys(s) == {s[0].0} + Keys(s[1..]);
    }
  }

  /** Where a put leaves another key, and which keys are then more recent than it. */
  ghost predicate Pushed<V>(s: seq<(string, V)>, s': seq<(string, V)>, x: string, i: nat, i': nat) {
    i < |s| && i' < |s'| && s'[i'] == s[i] && Keys(s'[..i']) == Keys(s[..i]) + {x}
  }

  /** A put of a more recent key leaves `i` where it is. */
  lemma PutAbove<V>(s: seq<(string, V)>, x: (string, V), cap: nat, i: nat)
    requires Distinct(s) && |s| <= cap && i < |s| && s[i].0 != x.0 && x.0 in Keys(s[..i])
    ensures Pushed(s, Put(s, x.0, x.1, cap), x.0, i, i)
  {
    var s' := Put(s, x.0, x.1, cap);
    var j :| 0 <= j < i && s[..i][j].0 == x.0;
    RemovedAt(s, j);
    FindAt(s, j);
    PutEvictsOnlyLeastRecent(s, x.0, x.1, cap);
    var a, b := s[..j], s[j + 1..i];
    assert s'[..i] == [x] + (a + b) && s[..i] == a + ([s[j]] + b);
    KeysCons(x, a + b);
    KeysConcat(a, b);
    KeysConcat(a, [s[j]] + b);
    KeysCons(s[j], b);
  }

  /** A put of a less recent key, or of a new one into room, shifts the keys above it by one. */
  lemma PutShifts<V>(s: seq<(string, V)>, x: (string, V), cap: nat, i: nat)
    requires Distinct(s) && |s| <= cap && i < |s| && s[i].0 != x.0 && x.0 !in Keys(s[..i])
    ensures var s' := Put(s, x.0, x.1, cap);
      if i + 1 < cap then i + 1 < |s'| && s'[i + 1] == s[i] && s'[..i + 1] == [x] + s[..i] else s' == [x] + s[..cap - 1]
  {
    PutEvictsOnlyLeastRecent(s, x.0, x.1, cap);
    FindFacts(s, x.0);
    if Find(s, x.0).Some? {
      var j :| 0 <= j < |s| && s[j].0 == x.0;
      forall l | 0 <= l < i ensures s[l].0 in Keys(s[..i]) {
        KeyAbove(s, i, l);
      }
      RemovedAt(s, j);
    }
  }

  lemma KeyAbove<V>(s: seq<(string, V)>, i: nat, j: nat)
    requires j < i <= |s|
    ensures s[j].0 in Keys(s[..i])
  {
    assert s[..i][j] == s[j];
  }

  /** A put of any other key pushes `i` down by one, or out. */
  lemma PutBelow<V>(s: seq<(string, V)>, x: (string, V), cap: nat, i: nat)
    requires Distinct(s) && |s| <= cap && i < |s| && s[i].0 != x.0 && x.0 !in Keys(s[..i])
    ensures var s' := Put(s, x.0, x.1, cap);
      if i + 1 < cap then Pushed(s, s', x.0, i, i + 1) else Find(s', s[i].0).None?
  {
    PutShifts(s, x, cap, i);
    if i + 1 < cap {
      KeysCons(x, s[..i]);
    } else {
      FindFacts([x] + s[..cap - 1], s[i].0);
    }
  }

  ghost predicate Survives<V>(s: seq<(string, V)>, k: string, moreRecent: set<string>, cap: nat) {
    Find(s, k).Some? <==> |moreRecent| < cap
  }

  /** A key survives puts of other keys exactly while the keys more recent than it, those that were
      and those that were put, are fewer than the capacity. */
  lemma {:induction false} SurvivesIff<V>(s: seq<(string, V)>, xs: seq<(string, V)>, cap: nat, i: nat)
    requires Distinct(s) && 1 <= cap && |s| <= cap && i < |s| && forall j | 0 <= j < |xs| :: xs[j].0 != s[i].0
    ensures Survives(PutAll(s, xs, cap), s[i].0, Keys(s[..i]) + Keys(xs), cap)
    decreases |xs|
  {
    if xs == [] {
      FindAt(s, i);
      DistinctKeys(s[..i]);
      assert Keys(s[..i]) + Keys(xs) == Keys(s[..i]);
    } else {
      var x, rest := xs[0], xs[1..];
      var s' := Put(s, x.0, x.1, cap);
      var i' := if x.0 in Keys(s[..i]) then i else i + 1;
      PutFacts(s, x.0, x.1, cap, s[i].0);
      KeysUncons(Keys(s[..i]), xs);
      PutMoves(s, x, cap, i);
      if i' < cap {
        SurvivesIff(s', rest, cap, i');
      } else {
        AbsentStaysAbsent(s', rest, cap, s[i].0);
        TooManyAbove(s, x.0, rest, i);
      }
    }
  }

  lemma PutMoves<V>(s: seq<(string, V)>, x: (string, V), cap: nat, i: nat)
    requires Distinct(s) && |s| <= cap && i < |s| && s[i].0 != x.0
    ensures var s', i' := Put(s, x.0, x.1, cap), if x.0 in Keys(s[..i]) then i else i + 1;
      if i' < cap then Pushed(s, s', x.0, i, i') else Find(s', s[i].0).None?
  {
    if x.0 in Keys(s[..i]) {
      PutAbove(s, x, cap, i);
    } else {
      PutBelow(s, x, cap, i);
    }
  }

  lemma TooManyAbove<V>(s: seq<(string, V)>, x: string, rest: seq<(string, V)>, i: nat)
    requires Distinct(s) && i < |s| && x !in Keys(s[..i])
    ensures |Keys(s[..i]) + {x} + Keys(rest)| >= i + 1
  {
    DistinctKeys(s[..i]);
    SubsetSize(Keys(s[..i]) + {x}, Keys(s[..i]) + {x} + Keys(rest));
  }

  lemma SubsetSize(a: set<string>, b: set<string>)
    requires a <= b
    ensures |a| <= |b|
  {
    assert |b| == |a| + |b - a| by { assert b == a + (b - a); }
  }

  /** A read moves its key to the front, value and all other keys in their order, and so it survives puts of
      fewer other keys than the capacity; a read of an absent key changes nothing. */
  lemma TouchLaw<V>(s: seq<(string, V)>, xs: seq<(string, V)>, cap: nat, i: nat)
    requires Distinct(s) && 1 <= cap && |s| <= cap && i < |s| && forall j | 0 <= j < |xs| :: xs[j].0 != s[i].0
    ensures Touched(s, s[i].0) == [s[i]] + (s[..i] + s[i + 1..])
    ensures Survives(PutAll(Touched(s, s[i].0), xs, cap), s[i].0, Keys(xs), cap)
  {
    FindAt(s, i);
    RemovedAt(s, i);
    var t := Touched(s, s[i].0);
    assert t == [s[i]] + (s[..i] + s[i + 1..]);
    SurvivesIff(t, xs, cap, 0);
    assert Keys(t[..0]) + Keys(xs) == Keys(xs);
  }

  lemma AbsentTouch<V>(s: seq<(string, V)>, k: string)
    requires forall i | 0 <= i < |s| :: s[i].0 != k
    ensures Touched(s, k) == s && Find(s, k).None?
  {
    FindFacts(s, k);
  }
}
