/** The canonical JSON printer behind conversation keys (pkg/credentiallb/key.go): two values print
    alike exactly when one is the other with array elements permuted, at any depth. */
module CanonicalJson {
  import opened SortedText
  import opened JsonText

  predicate NumberText(s: string) {
    && s != "" && (s[0] == '-' || '0' <= s[0] <= '9')
    && forall c | c in s :: '0' <= c <= '9' || c in {'+', '-', '.', 'e', 'E'}
  }

  /** A number is its shortest literal, which determines it. */
  type Number = s: string | NumberText(s) witness "0"

  datatype Json =
    | Null
    | Bool(b: bool)
    | Num(n: Number)
    | Str(s: string)
    | Arr(items: seq<Json>)
    | Obj(fields: map<string, Json>)

  // ------------------------------------------------------------------------ printer

  /** The keys in order. */
  ghost function SortedKeys(keys: set<string>): (ks: seq<string>)
    ensures Ordered(ks) && multiset(ks) == multiset(keys) && forall k :: k in ks <==> k in keys
  {
    if keys == {} then []
    else
      var k :| k in keys;
      var rest := SortedKeys(keys - {k});
      InsertFacts(k, rest);
      var ks := Insert(k, rest);
      assert multiset(keys) == multiset(keys - {k}) + multiset{k};
      assert forall x :: x in ks <==> x in multiset(ks);
      ks
  }

  /** Parts separated by commas. */
  function Join(parts: seq<string>): string {
    if parts == [] then "" else if |parts| == 1 then parts[0] else parts[0] + ([','] + Join(parts[1..]))
  }

  function Member(key: string, value: string): string {
    Quote(key) + ([':'] + value)
  }

  ghost function Canon(v: Json): string
    decreases v, 1
  {
    match v
    case Null => "null"
    case Bool(b) => if b then "true" else "false"
    case Num(n) => n
    case Str(s) => Quote(s)
    case Arr(items) => ['['] + (Join(Sort(Texts(v))) + [']'])
    case Obj(fields) => ['{'] + (Join(Members(v)) + ['}'])
  }

  /** The rendered elements, in the array's own order. */
  ghost function Texts(v: Json): seq<string>
    requires v.Arr?
    decreases v, 0
  {
    seq(|v.items|, i requires 0 <= i < |v.items| => Canon(v.items[i]))
  }

  /** The rendered members, in key order. */
  ghost function Members(v: Json): seq<string>
    requires v.Obj?
    decreases v, 0
  {
    var ks := SortedKeys(v.fields.Keys);
    seq(|ks|, i requires 0 <= i < |ks| => Member(ks[i], Canon(v.fields[ks[i]])))
  }

  // ---------------------------------------------------------------------- what it means

  /** Equal up to the order of array elements, at every depth. */
  ghost predicate Same(v: Json, w: Json) {
    match v
    case Arr(a) =>
      w.Arr? && |w.items| == |a|
      && exists p: seq<nat> :: Shuffle(p, |a|) && forall i | 0 <= i < |a| :: Same(a[i], w.items[p[i]])
    case Obj(f) => w.Obj? && f.Keys == w.fields.Keys && forall k | k in f :: Same(f[k], w.fields[k])
    case _ => v == w
  }

  // ------------------------------------------------------------------ unique readability

  /** A text that may follow a value inside an array or an object. */
  ghost predicate Stop(x: string) {
    x == "" || x[0] in {',', ']', '}'}
  }

  /** Where both end at a stop, `t` and `u` cannot be confused. */
  ghost predicate Apart(t: string, u: string) {
    forall x, y | Stop(x) && Stop(y) && t + x == u + y :: t == u && x == y
  }

  ghost predicate Opens(t: string) {
    t != "" && t[0] !in {',', ']', '}'}
  }

  lemma Cancel(c: char, d: char, x: string, y: string)
    requires [c] + x == [d] + y
    ensures c == d && x == y
  {
    assert ([c] + x)[0] == ([d] + y)[0];
    assert x == ([c] + x)[1..] && y == ([d] + y)[1..];
  }

  /** What stands after the first of the parts. */
  ghost function After(ps: seq<string>, x: string): string
    requires ps != []
  {
    if |ps| == 1 then x else [','] + (Join(ps[1..]) + x)
  }

  lemma JoinUnfolds(ps: seq<string>, x: string)
    ensures ps == [] ==> Join(ps) + x == x
    ensures ps != [] ==> Join(ps) + x == ps[0] + After(ps, x)
  {
  }

  ghost predicate AllOpen(ps: seq<string>) {
    forall i | 0 <= i < |ps| :: Opens(ps[i])
  }

  ghost predicate AllApart(ps: seq<string>, qs: seq<string>) {
    forall i, j | 0 <= i < |ps| && 0 <= j < |qs| :: Apart(ps[i], qs[j])
  }

  lemma FirstReadable(ps: seq<string>, qs: seq<string>, x: string, y: string)
    requires ps != [] && qs != [] && Apart(ps[0], qs[0]) && x != "" && y != "" && Stop(x) && Stop(y)
    requires Join(ps) + x == Join(qs) + y
    ensures ps[0] == qs[0] && After(ps, x) == After(qs, y)
  {
    JoinUnfolds(ps, x);
    JoinUnfolds(qs, y);
    assert Stop(After(ps, x)) && Stop(After(qs, y));
  }

  lemma BothEmpty(ps: seq<string>, qs: seq<string>, x: string, y: string)
    requires AllOpen(ps) && AllOpen(qs) && x != "" && y != "" && Stop(x) && Stop(y) && Join(ps) + x == Join(qs) + y
    ensures ps == [] <==> qs == []
  {
    JoinUnfolds(ps, x);
    JoinUnfolds(qs, y);
    assert ps != [] ==> Opens(ps[0]);
    assert qs != [] ==> Opens(qs[0]);
  }

  lemma {:induction false} JoinReadable(ps: seq<string>, qs: seq<string>, close: char, x: string, y: string)
    requires close in {']', '}'} && AllOpen(ps) && AllOpen(qs) && AllApart(ps, qs)
    requires Join(ps) + ([close] + x) == Join(qs) + ([close] + y)
    ensures ps == qs && x == y
  {
    var cx, cy := [close] + x, [close] + y;
    BothEmpty(ps, qs, cx, cy);
    if ps == [] {
      JoinUnfolds(ps, cx);
      JoinUnfolds(qs, cy);
      Cancel(close, close, x, y);
    } else {
      FirstReadable(ps, qs, cx, cy);
      assert |ps| == 1 <==> |qs| == 1;
      if |ps| == 1 {
        Cancel(close, close, x, y);
      } else {
        Cancel(',', ',', Join(ps[1..]) + cx, Join(qs[1..]) + cy);
        JoinReadable(ps[1..], qs[1..], close, x, y);
        assert ps == [ps[0]] + ps[1..] && qs == [qs[0]] + qs[1..];
      }
    }
  }

  lemma CanonOpens(v: Json)
    ensures Opens(Canon(v))
  {
  }

  /** The first character tells the kind of value. */
  lemma KindReadable(v: Json, w: Json, x: string, y: string)
    requires Canon(v) + x == Canon(w) + y
    ensures (v.Arr? <==> w.Arr?) && (v.Obj? <==> w.Obj?) && (v.Str? <==> w.Str?) && (v.Num? <==> w.Num?)
    ensures !v.Arr? && !v.Obj? && !v.Str? && !v.Num? ==> v == w
  {
    CanonOpens(v);
    CanonOpens(w);
    var t := Canon(v) + x;
    assert t[0] == Canon(v)[0] && t[0] == Canon(w)[0];
  }

  /** A number ends at the first character that cannot belong to one. */
  lemma NumberReadable(m: Number, n: Number, x: string, y: string)
    requires Stop(x) && Stop(y) && m + x == n + y
    ensures m == n && x == y
  {
    var t := m + x;
    assert forall i | 0 <= i < |m| :: t[i] in m;
    assert forall i | 0 <= i < |n| :: t[i] in n;
    assert x != "" ==> t[|m|] == x[0];
    assert y != "" ==> t[|n|] == y[0];
    assert |m| == |n|;
    assert m == t[..|m|] && n == t[..|n|] && x == t[|m|..] && y == t[|n|..];
  }

  lemma MemberUnfolds(k: string, t: string, x: string)
    ensures Member(k, t) + x == Quote(k) + ([':'] + (t + x))
  {
    assert ([':'] + t) + x == [':'] + (t + x);
    assert (Quote(k) + ([':'] + t)) + x == Quote(k) + (([':'] + t) + x);
  }

  lemma MemberReadable(k: string, l: string, t: string, u: string, x: string, y: string)
    requires Apart(t, u) && Stop(x) && Stop(y) && Member(k, t) + x == Member(l, u) + y
    ensures k == l && t == u && x == y
  {
    MemberUnfolds(k, t, x);
    MemberUnfolds(l, u, y);
    QuoteReadable(k, l, [':'] + (t + x), [':'] + (u + y));
    Cancel(':', ':', t + x, u + y);
  }

  lemma MemberApart(k: string, l: string, t: string, u: string)
    requires Apart(t, u)
    ensures Apart(Member(k, t), Member(l, u))
  {
    forall x, y | Stop(x) && Stop(y) && Member(k, t) + x == Member(l, u) + y
      ensures Member(k, t) == Member(l, u) && x == y
    {
      MemberReadable(k, l, t, u, x, y);
    }
  }

  /** Sorting moves texts around, it makes none up. */
  lemma SortedTexts(v: Json, t: string)
    requires v.Arr? && t in Sort(Texts(v))
    ensures exists i :: 0 <= i < |v.items| && Canon(v.items[i]) == t
  {
    SortFacts(Texts(v));
    assert t in multiset(Sort(Texts(v)));
    assert t in multiset(Texts(v));
    var i :| 0 <= i < |v.items| && Texts(v)[i] == t;
  }

  /** Any two printed values are apart: a value can be read off the front of a text. */
  lemma {:induction false} Readable(v: Json, w: Json)
    ensures Apart(Canon(v), Canon(w))
    decreases v, 1
  {
    forall x, y | Stop(x) && Stop(y) && Canon(v) + x == Canon(w) + y
      ensures Canon(v) == Canon(w) && x == y
    {
      KindReadable(v, w, x, y);
      match v {
        case Num(m) => NumberReadable(m, w.n, x, y);
        case Str(s) => QuoteReadable(s, w.s, x, y);
        case Arr(_) => ArrayReadable(v, w, x, y);
        case Obj(_) => ObjectReadable(v, w, x, y);
        case _ => assert x == (Canon(v) + x)[|Canon(v)|..] && y == (Canon(w) + y)[|Canon(w)|..];
      }
    }
  }

  lemma {:induction false} ArrayReadable(v: Json, w: Json, x: string, y: string)
    requires v.Arr? && w.Arr? && Canon(v) + x == Canon(w) + y
    ensures Sort(Texts(v)) == Sort(Texts(w)) && x == y
    decreases v, 0
  {
    var ps, qs := Sort(Texts(v)), Sort(Texts(w));
    forall i | 0 <= i < |ps| ensures Opens(ps[i]) {
      SortedTexts(v, ps[i]);
      var k :| 0 <= k < |v.items| && Canon(v.items[k]) == ps[i];
      CanonOpens(v.items[k]);
    }
    forall j | 0 <= j < |qs| ensures Opens(qs[j]) {
      SortedTexts(w, qs[j]);
      var l :| 0 <= l < |w.items| && Canon(w.items[l]) == qs[j];
      CanonOpens(w.items[l]);
    }
    forall i, j | 0 <= i < |ps| && 0 <= j < |qs| ensures Apart(ps[i], qs[j]) {
      SortedTexts(v, ps[i]);
      SortedTexts(w, qs[j]);
      var k :| 0 <= k < |v.items| && Canon(v.items[k]) == ps[i];
      var l :| 0 <= l < |w.items| && Canon(w.items[l]) == qs[j];
      Readable(v.items[k], w.items[l]);
    }
    BracketsReadable(ps, qs, '[', ']', x, y);
  }

  lemma MembersOpen(v: Json)
    requires v.Obj?
    ensures AllOpen(Members(v))
  {
  }

  /** One rendered member. */
  lemma MemberAt(v: Json, i: nat)
    requires v.Obj? && i < |Members(v)|
    ensures |Members(v)| == |SortedKeys(v.fields.Keys)| && SortedKeys(v.fields.Keys)[i] in v.fields
    ensures var k := SortedKeys(v.fields.Keys)[i]; Members(v)[i] == Member(k, Canon(v.fields[k]))
  {
  }

  lemma {:induction false} ObjectReadable(v: Json, w: Json, x: string, y: string)
    requires v.Obj? && w.Obj? && Canon(v) + x == Canon(w) + y
    ensures Members(v) == Members(w) && x == y
    decreases v, 0
  {
    var ps, qs := Members(v), Members(w);
    MembersOpen(v);
    MembersOpen(w);
    forall i, j | 0 <= i < |ps| && 0 <= j < |qs| ensures Apart(ps[i], qs[j]) {
      MemberAt(v, i);
      MemberAt(w, j);
      var k, l := SortedKeys(v.fields.Keys)[i], SortedKeys(w.fields.Keys)[j];
      Readable(v.fields[k], w.fields[l]);
      MemberApart(k, l, Canon(v.fields[k]), Canon(w.fields[l]));
    }
    BracketsReadable(ps, qs, '{', '}', x, y);
  }

  lemma BracketsReadable(ps: seq<string>, qs: seq<string>, open: char, close: char, x: string, y: string)
    requires close in {']', '}'} && AllOpen(ps) && AllOpen(qs) && AllApart(ps, qs)
    requires [open] + (Join(ps) + [close]) + x == [open] + (Join(qs) + [close]) + y
    ensures ps == qs && x == y
  {
    assert [open] + (Join(ps) + [close]) + x == [open] + (Join(ps) + ([close] + x));
    assert [open] + (Join(qs) + [close]) + y == [open] + (Join(qs) + ([close] + y));
    Cancel(open, open, Join(ps) + ([close] + x), Join(qs) + ([close] + y));
    JoinReadable(ps, qs, close, x, y);
  }

  // ------------------------------------------------------------------------ the theorem

  /** No collision: values that print alike differ in the order of array elements only. */
  lemma {:induction false} AlikeIsSame(v: Json, w: Json)
    requires Canon(v) == Canon(w)
    ensures Same(v, w)
  {
    assert Canon(v) + "" == Canon(w) + "";
    KindReadable(v, w, "", "");
    match v {
      case Num(_) =>
      case Str(s) => QuoteReadable(s, w.s, "", "");
      case Arr(a) =>
        ArrayReadable(v, w, "", "");
        SortFacts(Texts(v));
        SortFacts(Texts(w));
        var p := MatchUp(Texts(v), Texts(w));
        forall i | 0 <= i < |a| ensures Same(a[i], w.items[p[i]]) {
          assert Texts(v)[i] == Texts(w)[p[i]];
          AlikeIsSame(a[i], w.items[p[i]]);
        }
      case Obj(f) =>
        ObjectReadable(v, w, "", "");
        MembersDetermine(v, w);
        forall k | k in f ensures Same(f[k], w.fields[k]) {
          AlikeIsSame(f[k], w.fields[k]);
        }
      case _ =>
    }
  }

  lemma MembersDetermine(v: Json, w: Json)
    requires v.Obj? && w.Obj? && Members(v) == Members(w)
    ensures v.fields.Keys == w.fields.Keys && forall k | k in v.fields :: Canon(v.fields[k]) == Canon(w.fields[k])
  {
    var ks, ls := SortedKeys(v.fields.Keys), SortedKeys(w.fields.Keys);
    assert |ks| == |Members(v)| && |ls| == |Members(w)|;
    forall i | 0 <= i < |ks| ensures ks[i] == ls[i] && Canon(v.fields[ks[i]]) == Canon(w.fields[ls[i]]) {
      assert Members(v)[i] == Members(w)[i];
      var t, u := Canon(v.fields[ks[i]]), Canon(w.fields[ls[i]]);
      QuoteReadable(ks[i], ls[i], [':'] + t, [':'] + u);
      Cancel(':', ':', t, u);
    }
    assert ks == ls;
  }

  /** Order-invariance: permuting array elements at any depth does not change the text. */
  lemma {:induction false} SameIsAlike(v: Json, w: Json)
    requires Same(v, w)
    ensures Canon(v) == Canon(w)
  {
    match v {
      case Arr(a) =>
        var p: seq<nat> :| Shuffle(p, |a|) && forall i | 0 <= i < |a| :: Same(a[i], w.items[p[i]]);
        forall i | 0 <= i < |a| ensures Texts(v)[i] == Texts(w)[p[i]] {
          SameIsAlike(a[i], w.items[p[i]]);
        }
        ShuffledElements(Texts(v), Texts(w), p);
        SortFacts(Texts(v));
        SortFacts(Texts(w));
        OrderedUnique(Sort(Texts(v)), Sort(Texts(w)));
      case Obj(f) =>
        forall k | k in f ensures Canon(f[k]) == Canon(w.fields[k]) {
          SameIsAlike(f[k], w.fields[k]);
        }
        assert Members(v) == Members(w);
      case _ =>
    }
  }

  /** The canonical text identifies a value up to the order of array elements, at every depth:
      never less (order-invariance), never more (no element or member boundary can be aliased). */
  lemma CanonicalTextIsExact(v: Json, w: Json)
    ensures Canon(v) == Canon(w) <==> Same(v, w)
  {
    if Canon(v) == Canon(w) {
      AlikeIsSame(v, w);
    }
    if Same(v, w) {
      SameIsAlike(v, w);
    }
  }
}
