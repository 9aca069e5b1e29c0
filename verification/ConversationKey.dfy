/** From a message list to a conversation key (pkg/credentiallb/key.go): the printer as it is
    written, the leading run of user messages, and the text that is hashed. */
module ConversationKey {
  import opened SortedText
  import opened JsonText
  import opened CanonicalJson

  // ------------------------------------------------------------------------ the printer

  method KeyList(keys: set<string>) returns (ks: seq<string>)
    ensures multiset(ks) == multiset(keys)
  {
    ks := [];
    var left := keys;
    while left != {}
      invariant left <= keys && multiset(ks) + multiset(left) == multiset(keys)
      decreases |left|
    {
      var k :| k in left;
      assert multiset(left) == multiset(left - {k}) + multiset{k};
      left := left - {k};
      ks := ks + [k];
    }
  }

  method OrderedKeyList(keys: set<string>) returns (ks: seq<string>)
    ensures ks == SortedKeys(keys)
  {
    var found := KeyList(keys);
    SortFacts(found);
    OrderedUnique(Sort(found), SortedKeys(keys));
    return Sort(found);
  }

  lemma JoinAppend(parts: seq<string>, x: string)
    ensures Join(parts + [x]) == if parts == [] then x else Join(parts) + ([','] + x)
  {
    if |parts| > 1 {
      assert (parts + [x])[1..] == parts[1..] + [x];
      JoinAppend(parts[1..], x);
    }
  }

  method WriteParts(open: char, parts: seq<string>, close: char) returns (text: string)
    ensures text == [open] + (Join(parts) + [close])
  {
    var body := "";
    for i := 0 to |parts|
      invariant body == Join(parts[..i])
    {
      JoinAppend(parts[..i], parts[i]);
      assert parts[..i + 1] == parts[..i] + [parts[i]];
      body := if i > 0 then body + ([','] + parts[i]) else parts[i];
    }
    assert parts[..|parts|] == parts;
    text := [open] + (body + [close]);
  }

  /** writeCanonicalJSON: structural recursion with one loop per container. */
  method Write(v: Json) returns (text: string)
    ensures text == Canon(v)
    decreases v, 1, 0
  {
    match v {
      case Null => text := "null";
      case Bool(b) => text := if b then "true" else "false";
      case Num(n) => text := n;
      case Str(s) => text := Quote(s);
      case Arr(_) =>
        var parts := WriteItems(v);
        text := WriteParts('[', Sort(parts), ']');
      case Obj(_) =>
        var parts := WriteMembers(v);
        text := WriteParts('{', parts, '}');
    }
  }

  method WriteItems(v: Json) returns (parts: seq<string>)
    requires v.Arr?
    ensures parts == Texts(v)
    decreases v, 0, 0
  {
    parts := [];
    for i := 0 to |v.items|
      invariant |parts| == i && forall j | 0 <= j < i :: parts[j] == Canon(v.items[j])
    {
      var part := Write(v.items[i]);
      parts := parts + [part];
    }
  }

  method WriteMembers(v: Json) returns (parts: seq<string>)
    requires v.Obj?
    ensures parts == Members(v)
    decreases v, 0, 1
  {
    var keys := OrderedKeyList(v.fields.Keys);
    parts := WriteMemberList(v, keys);
    assert parts == Members(v);
  }

  method WriteMemberList(v: Json, keys: seq<string>) returns (parts: seq<string>)
    requires v.Obj? && forall i | 0 <= i < |keys| :: keys[i] in v.fields
    ensures parts == MemberTexts(v, keys)
    decreases v, 0, 0
  {
    parts := [];
    for i := 0 to |keys|
      invariant parts == MemberTexts(v, keys[..i])
    {
      var value := Write(v.fields[keys[i]]);
      NextMember(v, keys, i);
      parts := parts + [Member(keys[i], value)];
    }
    assert keys[..|keys|] == keys;
  }

  ghost function MemberTexts(v: Json, keys: seq<string>): seq<string>
    requires v.Obj? && forall i | 0 <= i < |keys| :: keys[i] in v.fields
  {
    seq(|keys|, i requires 0 <= i < |keys| => Member(keys[i], Canon(v.fields[keys[i]])))
  }

  lemma NextMember(v: Json, keys: seq<string>, i: nat)
    requires v.Obj? && (forall j | 0 <= j < |keys| :: keys[j] in v.fields) && i < |keys|
    ensures MemberTexts(v, keys[..i + 1]) == MemberTexts(v, keys[..i]) + [Member(keys[i], Canon(v.fields[keys[i]]))]
  {
  }

  // -------------------------------------------------------------------- the leading run

  /** The role, "" where there is none to dispatch on. */
  function Role(m: Json): string {
    if m.Obj? && "role" in m.fields && m.fields["role"].Str? then m.fields["role"].s else ""
  }

  /** The run goes on past this message. */
  predicate Continues(m: Json) {
    Role(m) == "system" || Role(m) == "user"
  }

  /** A user message with something to collect: a non-empty string or a non-empty list. */
  predicate Usable(m: Json) {
    && Role(m) == "user" && "content" in m.fields
    && (var c := m.fields["content"]; (c.Str? && c.s != "") || (c.Arr? && c.items != []))
  }

  function Contribution(m: Json): seq<Json> {
    if Usable(m) then [m.fields["content"]] else []
  }

  /** The contents of the usable messages before the first one that ends the run. */
  function Collected(ms: seq<Json>): seq<Json> {
    if ms == [] || !Continues(ms[0]) then []
    else Contribution(ms[0]) + Collected(ms[1..])
  }

  ghost function RunText(ms: seq<Json>): string {
    if Collected(ms) == [] then "" else Canon(Arr(Collected(ms)))
  }

  lemma CollectedFrom(collected: seq<Json>, ms: seq<Json>, i: nat)
    requires i < |ms| && Continues(ms[i])
    ensures collected + Collected(ms[i..]) == (collected + Contribution(ms[i])) + Collected(ms[i + 1..])
  {
    assert ms[i..][0] == ms[i] && ms[i..][1..] == ms[i + 1..];
  }

  lemma RunEnds(ms: seq<Json>)
    requires ms == [] || !Continues(ms[0])
    ensures Collected(ms) == []
  {
  }

  method CollectRun(ms: seq<Json>) returns (collected: seq<Json>)
    ensures collected == Collected(ms)
  {
    collected := [];
    var i := 0;
    assert ms[0..] == ms;
    while i < |ms| && Continues(ms[i])
      invariant 0 <= i <= |ms|
      invariant Collected(ms) == collected + Collected(ms[i..])
    {
      CollectedFrom(collected, ms, i);
      collected := collected + Contribution(ms[i]);
      i := i + 1;
    }
    RunEnds(ms[i..]);
  }

  /** ExtractLeadingUserRun: the walk with its early exit, then one canonical array. */
  method ExtractLeadingUserRun(ms: seq<Json>) returns (text: string)
    ensures text == RunText(ms)
  {
    var collected := CollectRun(ms);
    if collected == [] {
      return "";
    }
    text := Write(Arr(collected));
  }

  /** A message before position `i` ends the run. */
  ghost predicate EndedBefore(ms: seq<Json>, i: int) {
    exists j :: 0 <= j < i && j < |ms| && !Continues(ms[j])
  }

  lemma {:induction false} NothingCollectedIff(ms: seq<Json>)
    ensures Collected(ms) == [] <==> forall i | 0 <= i < |ms| && Usable(ms[i]) :: EndedBefore(ms, i)
  {
    if ms != [] && Continues(ms[0]) {
      NothingCollectedIff(ms[1..]);
      assert Usable(ms[0]) ==> !EndedBefore(ms, 0);
      forall i | 1 <= i < |ms| ensures EndedBefore(ms, i) <==> EndedBefore(ms[1..], i - 1) {
        if EndedBefore(ms, i) {
          var j :| 0 <= j < i && !Continues(ms[j]);
          assert ms[1..][j - 1] == ms[j];
        }
      }
      assert forall i | 1 <= i < |ms| :: ms[i] == ms[1..][i - 1];
      assert forall i | 0 <= i < |ms[1..]| :: ms[1..][i] == ms[i + 1];
    } else if ms != [] {
      assert !Usable(ms[0]);
      assert forall i | 0 < i < |ms| :: EndedBefore(ms, i);
    }
  }

  /** "" exactly when every usable message stands behind one that ends the run. */
  lemma EmptyRunIff(ms: seq<Json>)
    ensures RunText(ms) == "" <==> forall i | 0 <= i < |ms| && Usable(ms[i]) :: EndedBefore(ms, i)
  {
    NothingCollectedIff(ms);
    CanonOpens(Arr(Collected(ms)));
  }

  /** Two message lists have the same run text exactly when they collected the same contents, up to
      the order of the run and of any list inside it. */
  lemma SameRunIff(ms: seq<Json>, ns: seq<Json>)
    ensures RunText(ms) == RunText(ns) <==> Same(Arr(Collected(ms)), Arr(Collected(ns)))
  {
    CanonOpens(Arr(Collected(ms)));
    CanonOpens(Arr(Collected(ns)));
    CanonicalTextIsExact(Arr(Collected(ms)), Arr(Collected(ns)));
    if Collected(ms) == [] && Collected(ns) == [] {
      assert Arr(Collected(ms)) == Arr(Collected(ns));
    }
  }

  ghost predicate Says(m: Json, role: string) {
    m.Obj? && "role" in m.fields && m.fields["role"] == Str(role)
  }

  /** A string with a character in it, or a list with an element. */
  ghost predicate Substance(m: Json) {
    && m.Obj? && "content" in m.fields
    && match m.fields["content"] {
         case Str(s) => |s| > 0
         case Arr(items) => |items| > 0
         case _ => false
       }
  }

  /** Message by message: a system message is passed over, a user message gives its content if that has any
      substance, and anything else, a message without a role included, ends the run. */
  lemma CollectionLaw(m: Json, rest: seq<Json>)
    ensures Collected([]) == []
    ensures Collected([m] + rest) ==
      if Says(m, "system") then Collected(rest)
      else if Says(m, "user") then (if Substance(m) then [m.fields["content"]] else []) + Collected(rest)
      else []
  {
    assert ([m] + rest)[1..] == rest;
  }

  /** A later turn of the same conversation, or a preamble inserted into the run, keeps the text: so does a user
      message without substance, and nothing behind a message that ends the run matters. */
  lemma {:induction false} RunIsStable(ms: seq<Json>, m: Json, later: seq<Json>)
    ensures Says(m, "system") || (Says(m, "user") && !Substance(m)) ==>
      Collected(ms + [m] + later) == Collected(ms + later)
    ensures !Says(m, "system") && !Says(m, "user") ==> Collected(ms + [m] + later) == Collected(ms)
  {
    var all := ms + [m] + later;
    if ms == [] {
      CollectionLaw(m, later);
      assert all == [m] + later && ms + later == later;
    } else {
      assert all == [ms[0]] + (ms[1..] + [m] + later) && ms + later == [ms[0]] + (ms[1..] + later);
      assert ms == [ms[0]] + ms[1..];
      CollectionLaw(ms[0], ms[1..] + [m] + later);
      CollectionLaw(ms[0], ms[1..] + later);
      CollectionLaw(ms[0], ms[1..]);
      RunIsStable(ms[1..], m, later);
    }
  }

  // ------------------------------------------------------------------ the hashed text

  /** What ComputeConversationKey hashes. */
  function KeyInput(model: string, token: string, run: string): string {
    model + (['|'] + (token + (['|'] + run)))
  }

  /** It reads model, bar, token, bar, run. */
  lemma KeyInputReads(model: string, token: string, run: string)
    ensures var t, n := KeyInput(model, token, run), |model| + 1 + |token|;
      && |t| == n + 1 + |run|
      && t[..|model|] == model && t[|model|] == '|' && t[|model| + 1..n] == token && t[n] == '|' && t[n + 1..] == run
  {
  }

  /** A text before the first bar can be read off. */
  lemma {:induction false} BarReadable(a: string, b: string, x: string, y: string)
    requires '|' !in a && '|' !in b && a + (['|'] + x) == b + (['|'] + y)
    ensures a == b && x == y
  {
    var s, t := a + (['|'] + x), b + (['|'] + y);
    assert forall i | 0 <= i < |a| :: s[i] in a;
    assert forall i | 0 <= i < |b| :: s[i] in b;
    assert s[|a|] == '|' && t[|b|] == '|';
    assert |a| == |b|;
    assert a == s[..|a|] && b == t[..|b|] && x == s[|a| + 1..] && y == t[|b| + 1..];
  }

  /** Between ids without a bar the hashed text determines model, token and run. */
  lemma KeyInputInjective(m: string, t: string, r: string, m': string, t': string, r': string)
    requires '|' !in m && '|' !in t && '|' !in m' && '|' !in t'
    ensures KeyInput(m, t, r) == KeyInput(m', t', r') <==> m == m' && t == t' && r == r'
  {
    if KeyInput(m, t, r) == KeyInput(m', t', r') {
      BarReadable(m, m', t + (['|'] + r), t' + (['|'] + r'));
      BarReadable(t, t', r, r');
    }
  }

  lemma Assoc(a: string, b: string, c: string)
    ensures (a + b) + c == a + (b + c)
  {
  }

  lemma BarInModel(m: string, t: string, i: nat, r: string)
    requires i < |m| && m[i] == '|'
    ensures KeyInput(m[..i], m[i + 1..] + (['|'] + t), r) == KeyInput(m, t, r)
  {
    var a, b, tail := m[..i], m[i + 1..], ['|'] + r;
    assert m == a + (['|'] + b);
    Assoc(b, ['|'] + t, tail);
    Assoc(['|'], t, tail);
    Assoc(['|'], b, ['|'] + (t + tail));
    Assoc(a, ['|'] + b, ['|'] + (t + tail));
  }

  lemma BarInToken(m: string, t: string, i: nat, r: string)
    requires i < |t| && t[i] == '|'
    ensures KeyInput(m + (['|'] + t[..i]), t[i + 1..], r) == KeyInput(m, t, r)
  {
    var a, b, tail := t[..i], t[i + 1..], ['|'] + r;
    var rest := ['|'] + (b + tail);
    assert t == a + (['|'] + b);
    Assoc(a, ['|'] + b, tail);
    Assoc(['|'], b, tail);
    Assoc(['|'], a, rest);
    Assoc(m, ['|'] + a, rest);
  }

  /** An id with a bar always shares its hashed texts with another model and token, run by run. */
  lemma BarAliases(m: string, t: string) returns (m': string, t': string)
    requires '|' in m || '|' in t
    ensures m' != m && t' != t && forall r :: KeyInput(m', t', r) == KeyInput(m, t, r)
  {
    if '|' in m {
      var i :| 0 <= i < |m| && m[i] == '|';
      m', t' := m[..i], m[i + 1..] + (['|'] + t);
      forall r ensures KeyInput(m', t', r) == KeyInput(m, t, r) {
        BarInModel(m, t, i, r);
      }
    } else {
      var i :| 0 <= i < |t| && t[i] == '|';
      m', t' := m + (['|'] + t[..i]), t[i + 1..];
      forall r ensures KeyInput(m', t', r) == KeyInput(m, t, r) {
        BarInToken(m, t, i, r);
      }
    }
  }
}
