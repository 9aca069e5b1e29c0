/** The grammar of JSON text (RFC 8259), as a relation between texts and values that is independent of the
    printer, and the printer held against it. */
module JsonGrammar {
  import opened SortedText
  import opened JsonText
  import opened CanonicalJson

  // ------------------------------------------------------- string literals, section 7

  function HexValue(h: char): int {
    if '0' <= h <= '9' then (h - '0') as int
    else if 'a' <= h <= 'f' then 10 + (h - 'a') as int
    else if 'A' <= h <= 'F' then 10 + (h - 'A') as int
    else -1
  }

  ghost predicate IsHex(h: char) {
    HexValue(h) >= 0
  }

  /** `e` stands for the character `c` inside a literal: the character itself, a two-character escape, or the
      code in four hexadecimal digits. */
  ghost predicate StandsFor(e: string, c: char) {
    || (e == [c] && c as int >= 0x20 && c != '"' && c != '\\')
    || (|e| == 2 && e[0] == '\\' && match e[1]
          case '"' => c == '"'
          case '\\' => c == '\\'
          case '/' => c == '/'
          case 'b' => c as int == 8
          case 'f' => c as int == 12
          case 'n' => c as int == 10
          case 'r' => c as int == 13
          case 't' => c as int == 9
          case _ => false)
    || (|e| == 6 && e[0] == '\\' && e[1] == 'u' && (forall i | 2 <= i < 6 :: IsHex(e[i]))
        && c as int == ((HexValue(e[2]) * 16 + HexValue(e[3])) * 16 + HexValue(e[4])) * 16 + HexValue(e[5]))
  }

  /** `t` is the inside of a literal for `s`, character by character. */
  ghost predicate Spells(t: string, s: string)
    decreases |s|
  {
    if s == "" then t == ""
    else exists n: nat :: n <= |t| && StandsFor(t[..n], s[0]) && Spells(t[n..], s[1..])
  }

  ghost predicate Literal(t: string, s: string) {
    |t| >= 2 && t[0] == '"' && t[|t| - 1] == '"' && Spells(t[1..|t| - 1], s)
  }

  lemma HexDigitValue(n: nat)
    requires n < 16
    ensures HexValue(HexDigit(n)) == n && (n >= 10 ==> 'a' <= HexDigit(n) <= 'f')
  {
    assert "0123456789abcdef"[n] == if n < 10 then '0' + n as char else 'a' + (n - 10) as char;
  }

  lemma HexEscape(c: char)
    requires c as int < 0x10000
    ensures StandsFor(['\\', 'u'] + Hex4(c as int), c)
  {
    var n := c as int;
    var e := ['\\', 'u'] + Hex4(n);
    HexDigitValue(n / 4096);
    HexDigitValue(n / 256 % 16);
    HexDigitValue(n / 16 % 16);
    HexDigitValue(n % 16);
    Positional(n);
    assert e[2] == HexDigit(n / 4096) && e[3] == HexDigit(n / 256 % 16);
    assert e[4] == HexDigit(n / 16 % 16) && e[5] == HexDigit(n % 16);
  }

  /** The characters that encoding/json does not let stand: quote, backslash, controls, and for HTML's and
      JavaScript's sake the angle brackets, the ampersand and the two line separators. */
  ghost predicate Risky(c: char) {
    c as int < 0x20 || c in {'"', '\\', '<', '>', '&'} || c as int == 0x2028 || c as int == 0x2029
  }

  /** An escape stands for its character. Exactly the risky characters are escaped, the seven with a letter of
      their own by it, the others in hexadecimal. */
  lemma EscapeLaw(c: char)
    ensures StandsFor(Escape(c), c)
    ensures Escape(c) == [c] <==> !Risky(c)
    ensures |Escape(c)| == 2 <==> c in {'"', '\\', 8 as char, 12 as char, '\n', '\r', '\t'}
    ensures forall i | 0 <= i < |Escape(c)| && Risky(c) :: !Risky(Escape(c)[i]) || Escape(c)[i] in {'"', '\\'}
  {
    if c !in Short && NeedsHex(c) {
      HexEscape(c);
      HexIsSafe(c as int);
    }
  }

  lemma HexIsSafe(n: nat)
    requires n < 0x10000
    ensures forall i | 0 <= i < 4 :: !Risky(Hex4(n)[i])
  {
    HexDigitValue(n / 4096);
    HexDigitValue(n / 256 % 16);
    HexDigitValue(n / 16 % 16);
    HexDigitValue(n % 16);
  }

  lemma {:induction false} BodySpells(s: string)
    ensures Spells(Body(s), s)
  {
    if s != "" {
      BodySpells(s[1..]);
      EscapeLaw(s[0]);
      var e, t := Escape(s[0]), Body(s);
      assert t[..|e|] == e && t[|e|..] == Body(s[1..]);
    }
  }

  /** The printed literal is a literal for the string. */
  lemma QuoteIsLiteral(s: string)
    ensures Literal(Quote(s), s)
  {
    BodySpells(s);
    assert Quote(s)[1..|Quote(s)| - 1] == Body(s);
  }

  // ------------------------------------------------------------- values, sections 3 to 6

  /** Texts with a comma between any two. */
  ghost function Commas(ts: seq<string>): string {
    if ts == [] then "" else if |ts| == 1 then ts[0] else Commas(ts[..|ts| - 1]) + "," + ts[|ts| - 1]
  }

  /** `t` is a JSON text of `v`, without blanks; members in any order, each key once. */
  ghost predicate IsText(t: string, v: Json)
    decreases v, 0
  {
    match v
    case Null => t == "null"
    case Bool(b) => t == if b then "true" else "false"
    case Num(n) => t == n
    case Str(s) => Literal(t, s)
    case Arr(items) =>
      exists ts: seq<string> ::
        |ts| == |items| && t == "[" + Commas(ts) + "]" && forall i | 0 <= i < |items| :: IsText(ts[i], items[i])
    case Obj(fields) =>
      exists ks: seq<string>, ts: seq<string> ::
        && Enumerates(ks, fields.Keys) && |ts| == |ks| && t == "{" + Commas(ts) + "}"
        && forall i | 0 <= i < |ks| && ks[i] in fields :: MemberText(ts[i], ks[i], fields[ks[i]])
  }

  ghost predicate Enumerates(ks: seq<string>, keys: set<string>) {
    (forall k :: k in ks <==> k in keys) && forall i, j | 0 <= i < j < |ks| :: ks[i] != ks[j]
  }

  ghost predicate MemberText(t: string, k: string, v: Json)
    decreases v, 1
  {
    exists n: nat :: n < |t| && t[n] == ':' && Literal(t[..n], k) && IsText(t[n + 1..], v)
  }

  lemma {:induction false} CommasCons(x: string, ts: seq<string>)
    requires ts != []
    ensures Commas([x] + ts) == x + ("," + Commas(ts))
  {
    var all := [x] + ts;
    if |ts| == 1 {
      assert all[..1] == [x] && Commas([x]) == x;
      assert x + "," + ts[0] == x + ("," + ts[0]);
    } else {
      var init, last := ts[..|ts| - 1], ts[|ts| - 1];
      CommasCons(x, init);
      assert all[..|all| - 1] == [x] + init;
      assert (x + ("," + Commas(init))) + "," + last == x + ("," + (Commas(init) + "," + last));
    }
  }

  lemma {:induction false} JoinIsCommas(ts: seq<string>)
    ensures Join(ts) == Commas(ts)
  {
    if |ts| > 1 {
      JoinIsCommas(ts[1..]);
      CommasCons(ts[0], ts[1..]);
      assert ts == [ts[0]] + ts[1..];
    }
  }

  lemma MemberIsText(k: string, v: Json, t: string)
    requires IsText(t, v)
    ensures MemberText(Member(k, t), k, v)
  {
    QuoteIsLiteral(k);
    var n, m := |Quote(k)|, Member(k, t);
    assert m[n] == ':' && m[..n] == Quote(k) && m[n + 1..] == t;
  }

  /** Some value that prints alike has this text. */
  ghost predicate Prints(v: Json, w: Json) {
    Canon(w) == Canon(v) && IsText(Canon(v), w)
  }

  lemma {:induction false} CanonPrints(v: Json) returns (w: Json)
    ensures Prints(v, w)
    decreases v, 1
  {
    match v {
      case Str(s) =>
        QuoteIsLiteral(s);
        w := v;
      case Arr(_) => w := ArrayPrints(v);
      case Obj(_) => w := ObjectPrints(v);
      case _ => w := v;
    }
  }

  lemma {:induction false} ItemsPrint(v: Json) returns (ws: seq<Json>)
    requires v.Arr?
    ensures |ws| == |v.items| && forall i | 0 <= i < |ws| :: Prints(v.items[i], ws[i])
    decreases v, 0, 0
  {
    ws := [];
    for i := 0 to |v.items|
      invariant |ws| == i && forall k | 0 <= k < i :: Prints(v.items[k], ws[k])
    {
      var x := CanonPrints(v.items[i]);
      ws := ws + [x];
    }
  }

  /** The rendered elements in order are those of the elements in that order. */
  lemma {:induction false} ArrayPrints(v: Json) returns (w: Json)
    requires v.Arr?
    ensures Prints(v, w)
    decreases v, 0, 1
  {
    var ws := ItemsPrint(v);
    var ts := Sort(Texts(v));
    SortFacts(Texts(v));
    var p := MatchUp(ts, Texts(v));
    w := Arr(seq(|ts|, i requires 0 <= i < |ts| => ws[p[i]]));
    forall i | 0 <= i < |ts| ensures ts[i] == Canon(w.items[i]) && IsText(ts[i], w.items[i]) {
      assert ts[i] == Texts(v)[p[i]] && Prints(v.items[p[i]], ws[p[i]]);
    }
    SortedArrayPrints(v, w, ts);
  }

  lemma SortedArrayPrints(v: Json, w: Json, ts: seq<string>)
    requires v.Arr? && w.Arr? && ts == Sort(Texts(v)) && |w.items| == |ts|
    requires forall i | 0 <= i < |ts| :: ts[i] == Canon(w.items[i]) && IsText(ts[i], w.items[i])
    ensures Prints(v, w)
  {
    assert Texts(w) == ts;
    SortFacts(Texts(v));
    SortFacts(ts);
    OrderedUnique(Sort(ts), ts);
    JoinIsCommas(ts);
    assert Canon(v) == "[" + Commas(ts) + "]";
  }

  lemma {:induction false} FieldsPrint(v: Json) returns (fs: map<string, Json>)
    requires v.Obj?
    ensures fs.Keys == v.fields.Keys && forall k | k in fs :: Prints(v.fields[k], fs[k])
    decreases v, 0, 0
  {
    fs := map[];
    var left := v.fields.Keys;
    while left != {}
      invariant left <= v.fields.Keys && fs.Keys == v.fields.Keys - left
      invariant forall k | k in fs :: Prints(v.fields[k], fs[k])
      decreases |left|
    {
      var k :| k in left;
      var x := CanonPrints(v.fields[k]);
      fs := fs[k := x];
      left := left - {k};
    }
  }

  lemma {:induction false} ObjectPrints(v: Json) returns (w: Json)
    requires v.Obj?
    ensures Prints(v, w)
    decreases v, 0, 1
  {
    var fs := FieldsPrint(v);
    w := Obj(fs);
    var ks, ts := SortedKeys(v.fields.Keys), Members(v);
    assert Members(w) == ts;
    forall i | 0 <= i < |ks| && ks[i] in fs ensures MemberText(ts[i], ks[i], fs[ks[i]]) {
      MemberAt(v, i);
      assert Prints(v.fields[ks[i]], fs[ks[i]]);
      MemberIsText(ks[i], fs[ks[i]], Canon(v.fields[ks[i]]));
    }
    SortedMembersPrint(v, w, ks, ts);
  }

  lemma SortedMembersPrint(v: Json, w: Json, ks: seq<string>, ts: seq<string>)
    requires v.Obj? && w.Obj? && w.fields.Keys == v.fields.Keys && ts == Members(v) == Members(w)
    requires ks == SortedKeys(v.fields.Keys)
    requires forall i | 0 <= i < |ks| && ks[i] in w.fields :: i < |ts| && MemberText(ts[i], ks[i], w.fields[ks[i]])
    ensures Prints(v, w)
  {
    JoinIsCommas(ts);
    SortedKeysDistinct(v.fields.Keys);
    ObjectText(w, ks, ts);
    assert Canon(v) == "{" + Commas(ts) + "}";
    assert Canon(w) == Canon(v);
  }

  lemma ObjectText(w: Json, ks: seq<string>, ts: seq<string>)
    requires w.Obj? && Enumerates(ks, w.fields.Keys) && |ts| == |ks|
    requires forall i | 0 <= i < |ks| && ks[i] in w.fields :: MemberText(ts[i], ks[i], w.fields[ks[i]])
    ensures IsText("{" + Commas(ts) + "}", w)
  {
  }

  lemma NoTwice(s: seq<string>, i: nat, j: nat)
    requires i < j < |s| && s[i] == s[j]
    ensures multiset(s)[s[i]] >= 2
  {
    var a, b := s[..j], s[j..];
    assert s == a + b && a[i] == s[i] && b[0] == s[i];
    assert s[i] in multiset(a) && s[i] in multiset(b);
  }

  lemma SortedKeysDistinct(keys: set<string>)
    ensures var ks := SortedKeys(keys); forall i, j | 0 <= i < j < |ks| :: ks[i] != ks[j]
  {
    var ks := SortedKeys(keys);
    forall i, j | 0 <= i < j < |ks| ensures ks[i] != ks[j] {
      if ks[i] == ks[j] {
        NoTwice(ks, i, j);
      }
    }
  }

  /** The printed text of every value is a JSON text of that value, up to the order of array elements. */
  lemma CanonIsText(v: Json) returns (w: Json)
    ensures Same(v, w) && IsText(Canon(v), w)
  {
    w := CanonPrints(v);
    AlikeIsSame(v, w);
  }

  // ------------------------------------------------------------------------- the order

  /** `a` stands before `b` in a dictionary: it is how `b` begins, or the first character in which they differ
      is smaller. */
  ghost predicate Before(a: string, b: string) {
    || a <= b
    || exists n: nat :: n < |a| && n < |b| && a[..n] == b[..n] && a[n] < b[n]
  }

  lemma {:induction false} LeqLaw(a: string, b: string)
    ensures Leq(a, b) ==> Before(a, b)
  {
    if a != "" && Leq(a, b) {
      if a[0] < b[0] {
        assert a[..0] == b[..0];
      } else {
        LeqLaw(a[1..], b[1..]);
        if a[1..] <= b[1..] {
          assert a == [a[0]] + a[1..] && b == [b[0]] + b[1..];
        } else {
          var n: nat :| n < |a[1..]| && n < |b[1..]| && a[1..][..n] == b[1..][..n] && a[1..][n] < b[1..][n];
          assert a[..n + 1] == [a[0]] + a[1..][..n] && b[..n + 1] == [b[0]] + b[1..][..n];
        }
      }
    }
  }

  /** Keys and rendered elements stand in dictionary order. */
  lemma OrderLaw(v: Json)
    ensures v.Obj? ==> forall i, j | 0 <= i < j < |SortedKeys(v.fields.Keys)| ::
        Before(SortedKeys(v.fields.Keys)[i], SortedKeys(v.fields.Keys)[j])
    ensures v.Arr? ==> forall i, j | 0 <= i < j < |Sort(Texts(v))| :: Before(Sort(Texts(v))[i], Sort(Texts(v))[j])
  {
    if v.Obj? {
      var ks := SortedKeys(v.fields.Keys);
      forall i, j | 0 <= i < j < |ks| ensures Before(ks[i], ks[j]) {
        LeqLaw(ks[i], ks[j]);
      }
    } else if v.Arr? {
      var ts := Sort(Texts(v));
      SortFacts(Texts(v));
      forall i, j | 0 <= i < j < |ts| ensures Before(ts[i], ts[j]) {
        LeqLaw(ts[i], ts[j]);
      }
    }
  }
}
