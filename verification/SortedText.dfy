/** Lexicographic order on text, sorting, and what a sort forgets: exactly the order. Code points
    compare as their UTF-8 bytes do. */
module SortedText {
  predicate Leq(a: string, b: string) {
    a == "" || (b != "" && (a[0] < b[0] || (a[0] == b[0] && Leq(a[1..], b[1..]))))
  }

  lemma {:induction false} LeqTotal(a: string, b: string)
    ensures Leq(a, b) || Leq(b, a)
    ensures Leq(a, b) && Leq(b, a) ==> a == b
  {
    if a != "" && b != "" && a[0] == b[0] {
      LeqTotal(a[1..], b[1..]);
      assert a == [a[0]] + a[1..] && b == [b[0]] + b[1..];
    }
  }

  lemma {:induction false} LeqTransitive(a: string, b: string, c: string)
    requires Leq(a, b) && Leq(b, c)
    ensures Leq(a, c)
  {
    if a != "" && a[0] == b[0] == c[0] {
      LeqTransitive(a[1..], b[1..], c[1..]);
    }
  }

  ghost predicate Ordered(s: seq<string>) {
    forall i, j | 0 <= i < j < |s| :: Leq(s[i], s[j])
  }

  function Insert(x: string, s: seq<string>): seq<string> {
    if s == [] || Leq(x, s[0]) then [x] + s else [s[0]] + Insert(x, s[1..])
  }

  lemma {:induction false} InsertElements(x: string, s: seq<string>)
    ensures multiset(Insert(x, s)) == multiset(s) + multiset{x}
  {
    if s != [] && !Leq(x, s[0]) {
      InsertElements(x, s[1..]);
      assert s == [s[0]] + s[1..];
    }
  }

  lemma LeastFirst(x: string, s: seq<string>)
    requires Ordered(s) && forall y | y in multiset(s) :: Leq(x, y)
    ensures Ordered([x] + s)
  {
    var t := [x] + s;
    forall i, j | 0 <= i < j < |t| ensures Leq(t[i], t[j]) {
      assert t[j] == s[j - 1] && s[j - 1] in multiset(s);
    }
  }

  lemma {:induction false} InsertOrdered(x: string, s: seq<string>)
    requires Ordered(s)
    ensures Ordered(Insert(x, s))
  {
    if s != [] {
      LeqTotal(x, s[0]);
      if Leq(x, s[0]) {
        forall y | y in multiset(s) ensures Leq(x, y) {
          FirstIsLeast(s, y);
          LeqTransitive(x, s[0], y);
        }
        LeastFirst(x, s);
      } else {
        InsertOrdered(x, s[1..]);
        InsertElements(x, s[1..]);
        forall y | y in multiset(Insert(x, s[1..])) ensures Leq(s[0], y) {
          if y != x {
            assert y in s[1..];
            FirstIsLeast(s, y);
          }
        }
        LeastFirst(s[0], Insert(x, s[1..]));
      }
    }
  }

  lemma InsertFacts(x: string, s: seq<string>)
    requires Ordered(s)
    ensures Ordered(Insert(x, s)) && multiset(Insert(x, s)) == multiset(s) + multiset{x}
  {
    InsertElements(x, s);
    InsertOrdered(x, s);
  }

  function Sort(s: seq<string>): seq<string> {
    if s == [] then [] else Insert(s[0], Sort(s[1..]))
  }

  lemma {:induction false} SortElements(s: seq<string>)
    ensures multiset(Sort(s)) == multiset(s)
  {
    if s != [] {
      SortElements(s[1..]);
      InsertElements(s[0], Sort(s[1..]));
      assert s == [s[0]] + s[1..];
    }
  }

  lemma {:induction false} SortOrders(s: seq<string>)
    ensures Ordered(Sort(s))
  {
    if s != [] {
      SortOrders(s[1..]);
      InsertOrdered(s[0], Sort(s[1..]));
    }
  }

  lemma SortFacts(s: seq<string>)
    ensures Ordered(Sort(s)) && multiset(Sort(s)) == multiset(s) && |Sort(s)| == |s|
  {
    SortElements(s);
    SortOrders(s);
    assert |multiset(Sort(s))| == |multiset(s)|;
  }

  lemma FirstIsLeast(s: seq<string>, x: string)
    requires Ordered(s) && x in multiset(s)
    ensures Leq(s[0], x)
  {
    var i :| 0 <= i < |s| && s[i] == x;
    LeqTotal(x, x);
  }

  lemma TailElements(s: seq<string>)
    requires s != []
    ensures multiset(s[1..]) == multiset(s) - multiset{s[0]} && s == [s[0]] + s[1..]
  {
    assert s == [s[0]] + s[1..];
  }

  lemma SameHead(s: seq<string>, t: seq<string>)
    requires Ordered(s) && Ordered(t) && multiset(s) == multiset(t) && s != []
    ensures t != [] && s[0] == t[0] && multiset(s[1..]) == multiset(t[1..])
  {
    assert s[0] in multiset(t) && t[0] in multiset(s);
    FirstIsLeast(s, t[0]);
    FirstIsLeast(t, s[0]);
    LeqTotal(s[0], t[0]);
    TailElements(s);
    TailElements(t);
  }

  /** An ordered sequence is determined by its elements. */
  lemma {:induction false} OrderedUnique(s: seq<string>, t: seq<string>)
    requires Ordered(s) && Ordered(t) && multiset(s) == multiset(t)
    ensures s == t
  {
    if s != [] {
      SameHead(s, t);
      OrderedUnique(s[1..], t[1..]);
      assert s == [s[0]] + s[1..] && t == [t[0]] + t[1..];
    } else {
      assert |multiset(t)| == 0;
    }
  }

  // ------------------------------------------------------------------- permutations

  /** `p` lists 0..n-1 in some order. */
  ghost predicate Shuffle(p: seq<nat>, n: nat) {
    |p| == n && (forall i | 0 <= i < n :: p[i] < n) && (forall i, j | 0 <= i < j < n :: p[i] != p[j])
  }

  /** `p` sends every element of `s` to an equal element of `t`. */
  ghost predicate Matches(s: seq<string>, t: seq<string>, p: seq<nat>) {
    |s| == |t| && Shuffle(p, |s|) && forall i | 0 <= i < |s| :: s[i] == t[p[i]]
  }

  ghost function Removed(t: seq<string>, j: nat): seq<string>
    requires j < |t|
  {
    t[..j] + t[j + 1..]
  }

  lemma RemovedFacts(t: seq<string>, j: nat)
    requires j < |t|
    ensures multiset(t) == multiset(Removed(t, j)) + multiset{t[j]}
  {
    assert t == t[..j] + ([t[j]] + t[j + 1..]);
  }

  /** The permutation without its first image. */
  ghost function Narrowed(p: seq<nat>): seq<nat>
    requires p != []
  {
    seq(|p| - 1, i requires 0 <= i < |p| - 1 => if p[i + 1] <= p[0] then p[i + 1] else p[i + 1] - 1)
  }

  lemma NarrowedMatches(s: seq<string>, t: seq<string>, p: seq<nat>)
    requires Matches(s, t, p) && s != []
    ensures Matches(s[1..], Removed(t, p[0]), Narrowed(p))
  {
    var q, t' := Narrowed(p), Removed(t, p[0]);
    forall i | 0 <= i < |s| - 1 ensures q[i] < |s| - 1 && s[1..][i] == t'[q[i]] {
      assert p[0] != p[i + 1] && s[i + 1] == t[p[i + 1]];
    }
    forall i, j | 0 <= i < j < |s| - 1 ensures q[i] != q[j] {
      assert p[i + 1] != p[j + 1] && p[0] != p[i + 1] && p[0] != p[j + 1];
    }
  }

  lemma {:induction false} ShuffledElements(s: seq<string>, t: seq<string>, p: seq<nat>)
    requires Matches(s, t, p)
    ensures multiset(s) == multiset(t)
    decreases |s|
  {
    if s != [] {
      NarrowedMatches(s, t, p);
      ShuffledElements(s[1..], Removed(t, p[0]), Narrowed(p));
      RemovedFacts(t, p[0]);
      assert s == [s[0]] + s[1..];
    }
  }

  /** Make room for a new first image `j`. */
  ghost function Widened(q: seq<nat>, j: nat): seq<nat> {
    [j] + seq(|q|, i requires 0 <= i < |q| => if q[i] < j then q[i] else q[i] + 1)
  }

  lemma WidenedShuffles(q: seq<nat>, j: nat, n: nat)
    requires Shuffle(q, n) && j <= n
    ensures Shuffle(Widened(q, j), n + 1)
  {
    var p := Widened(q, j);
    forall i | 0 <= i < n + 1 ensures p[i] < n + 1 && (i > 0 ==> p[i] != j) {
      if i > 0 { assert p[i] == if q[i - 1] < j then q[i - 1] else q[i - 1] + 1; }
    }
    forall i, k | 0 <= i < k < n + 1 ensures p[i] != p[k] {
      if i > 0 { assert q[i - 1] != q[k - 1]; }
    }
  }

  lemma WidenedMatches(s: seq<string>, t: seq<string>, j: nat, q: seq<nat>)
    requires s != [] && j < |t| && t[j] == s[0] && Matches(s[1..], Removed(t, j), q)
    ensures Matches(s, t, Widened(q, j))
  {
    WidenedShuffles(q, j, |q|);
    forall i | 1 <= i < |s| ensures s[i] == t[Widened(q, j)[i]] {
      assert s[i] == s[1..][i - 1] == Removed(t, j)[q[i - 1]];
    }
  }

  lemma HeadElsewhere(s: seq<string>, t: seq<string>) returns (j: nat)
    requires s != [] && multiset(s) == multiset(t)
    ensures j < |t| && t[j] == s[0] && multiset(s[1..]) == multiset(Removed(t, j))
  {
    assert s[0] in multiset(t);
    j :| j < |t| && t[j] == s[0];
    RemovedFacts(t, j);
    TailElements(s);
    assert multiset(Removed(t, j)) == multiset(t) - multiset{t[j]};
  }

  /** Equal elements can be matched up by a permutation. */
  lemma {:induction false} MatchUp(s: seq<string>, t: seq<string>) returns (p: seq<nat>)
    requires multiset(s) == multiset(t)
    ensures Matches(s, t, p)
    decreases |s|
  {
    assert |multiset(s)| == |multiset(t)|;
    if s == [] {
      return [];
    }
    var j := HeadElsewhere(s, t);
    var q := MatchUp(s[1..], Removed(t, j));
    p := Widened(q, j);
    WidenedMatches(s, t, j, q);
  }
}
