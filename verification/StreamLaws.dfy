/** What the events of a stream carry, put together kind by kind, and in what order a line sends them: every
    text and fragment of the upstream is passed on once, in order. */
module StreamLaws {
  import opened Options
  import opened StreamText
  import opened StreamFolder
  import opened StreamReasoning

  // ------------------------------------------------------------------ what events carry

  /** The content text, the tool-call fragments, the plain reasoning texts, the reasoning events of choices,
      and the number of errors. */
  datatype Parts = Parts(content: string, frags: seq<Fragment>, plain: seq<string>, told: seq<Event>, errors: nat)

  const Nothing := Parts("", [], [], [], 0)

  ghost function Plus(a: Parts, b: Parts): Parts {
    Parts(a.content + b.content, a.frags + b.frags, a.plain + b.plain, a.told + b.told, a.errors + b.errors)
  }

  ghost function PartOf(e: Event): Parts {
    match e
    case Content(text) => Nothing.(content := text)
    case ToolCall(tools) => Nothing.(frags := tools)
    case Thinking(text, origin) => if origin.None? then Nothing.(plain := [text]) else Nothing.(told := [e])
    case Error => Nothing.(errors := 1)
    case Done(_) => Nothing
  }

  ghost function PartsOf(es: seq<Event>): Parts {
    if es == [] then Nothing else Plus(PartsOf(es[..|es| - 1]), PartOf(es[|es| - 1]))
  }

  lemma PlusAssoc(a: Parts, b: Parts, c: Parts)
    ensures Plus(a, Plus(b, c)) == Plus(Plus(a, b), c)
    ensures Plus(a, Nothing) == a && Plus(Nothing, a) == a
  {
    Assoc(a.content, b.content, c.content);
    Assoc(a.frags, b.frags, c.frags);
    Assoc(a.plain, b.plain, c.plain);
    Assoc(a.told, b.told, c.told);
  }

  lemma PartsAppend(es: seq<Event>, e: Event)
    ensures PartsOf(es + [e]) == Plus(PartsOf(es), PartOf(e))
  {
    assert (es + [e])[..|es|] == es;
  }

  lemma PartsStep(es: seq<Event>, init: seq<Event>, last: Event, fs: seq<Event>, all: seq<Event>)
    requires fs == init + [last] && all == (es + init) + [last]
    requires PartsOf(es + init) == Plus(PartsOf(es), PartsOf(init))
    ensures PartsOf(all) == Plus(PartsOf(es), PartsOf(fs))
  {
    PartsAppend(es + init, last);
    PartsAppend(init, last);
    PlusAssoc(PartsOf(es), PartsOf(init), PartOf(last));
  }

  lemma {:induction false} PartsConcat(es: seq<Event>, fs: seq<Event>)
    ensures PartsOf(es + fs) == Plus(PartsOf(es), PartsOf(fs))
    decreases |fs|
  {
    if fs == [] {
      assert es + fs == es;
      PlusAssoc(PartsOf(es), Nothing, Nothing);
    } else {
      var init, last := fs[..|fs| - 1], fs[|fs| - 1];
      PartsConcat(es, init);
      PartsStep(es, init, last, fs, es + fs);
    }
  }

  // --------------------------------------------------------------- what the lines carried

  /** The delta of a line's first choice. */
  ghost predicate HasDelta(line: Line) {
    line.Data? && line.chunk.first.Some? && line.chunk.first.value.delta.Some?
  }

  /** The contents of the deltas, joined in line order. */
  ghost function Contents(lines: seq<Line>): string {
    if lines == [] then ""
    else
      var line := lines[|lines| - 1];
      Contents(lines[..|lines| - 1]) + if HasDelta(line) then line.chunk.first.value.delta.value.content else ""
  }

  /** The plain reasoning texts that count: of chunks with a delta and without a reasoning entry. */
  ghost predicate PlainCounts(line: Line) {
    HasDelta(line) && line.chunk.plain != "" && forall r | r in line.chunk.reasoning :: |r.entries| == 0
  }

  ghost function Plains(lines: seq<Line>): seq<string> {
    if lines == [] then []
    else Plains(lines[..|lines| - 1])
         + if PlainCounts(lines[|lines| - 1]) then [lines[|lines| - 1].chunk.plain] else []
  }

  ghost function Garbled(lines: seq<Line>): nat {
    if lines == [] then 0 else Garbled(lines[..|lines| - 1]) + if lines[|lines| - 1].Garbage? then 1 else 0
  }

  // ------------------------------------------------------------------------- one line

  ghost function LinePart(issued: map<int, string>, line: Line): Parts {
    if line.Garbage? then Nothing.(errors := 1)
    else if !HasDelta(line) then Nothing
    else
      var d := line.chunk.first.value.delta.value;
      Parts(d.content, d.tools, if PlainCounts(line) then [line.chunk.plain] else [],
            Sent(issued, Items(line.chunk.reasoning)), 0)
  }

  lemma ToldPlus(a: seq<Event>, b: seq<Event>)
    ensures Plus(Nothing.(told := a), Nothing.(told := b)) == Nothing.(told := a + b)
  {
  }

  lemma SendsIsTold(issued: map<int, string>, item: (int, string))
    ensures PartsOf(Sends(issued, item)) == Nothing.(told := Sends(issued, item))
  {
    var out := Out(issued, item);
    if out.Some? {
      SingleParts(Thinking(out.value, Some(item.0)));
    }
  }

  lemma {:induction false} SentIsTold(issued: map<int, string>, items: seq<(int, string)>)
    ensures PartsOf(Sent(issued, items)) == Nothing.(told := Sent(issued, items))
  {
    if items != [] {
      var init, last := items[..|items| - 1], items[|items| - 1];
      var sends := Sends(IssueAll(issued, init), last);
      SentIsTold(issued, init);
      SendsIsTold(IssueAll(issued, init), last);
      PartsConcat(Sent(issued, init), sends);
      ToldPlus(Sent(issued, init), sends);
    }
  }

  lemma ThoughtParts(st: State, line: Line)
    requires HasDelta(line)
    ensures PartsOf(Thoughts(st, line.chunk))
      == Nothing.(plain := if PlainCounts(line) then [line.chunk.plain] else [],
                  told := Sent(st.issued, Items(line.chunk.reasoning)))
  {
    var rs := line.chunk.reasoning;
    if HasDetails(rs) {
      SentIsTold(st.issued, Items(rs));
      var i :| 0 <= i < |rs| && rs[i].entries != [];
      assert rs[i] in rs;
    } else {
      NoDetailsNoItems(rs);
      if line.chunk.plain != "" {
        PartsAppend([], Thinking(line.chunk.plain, None));
        assert [] + [Thinking(line.chunk.plain, None)] == Thoughts(st, line.chunk);
        assert PlainCounts(line);
      }
    }
  }

  lemma SingleParts(e: Event)
    ensures PartsOf([e]) == PartOf(e)
  {
    PartsAppend([], e);
    assert [] + [e] == [e];
    PlusAssoc(PartOf(e), Nothing, Nothing);
  }

  /** The content event and the tool-call event of a delta, where there is something to say. */
  lemma EdgeParts(d: Delta)
    ensures PartsOf(if d.content != "" then [Content(d.content)] else []) == Nothing.(content := d.content)
    ensures PartsOf(if d.tools != [] then [ToolCall(d.tools)] else []) == Nothing.(frags := d.tools)
  {
    SingleParts(Content(d.content));
    SingleParts(ToolCall(d.tools));
  }

  lemma PlusThree(content: string, plain: seq<string>, told: seq<Event>, frags: seq<Fragment>)
    ensures Plus(Plus(Nothing.(content := content), Nothing.(plain := plain, told := told)), Nothing.(frags := frags))
      == Parts(content, frags, plain, told, 0)
  {
  }

  lemma DeltaParts(st: State, line: Line)
    requires HasDelta(line)
    ensures PartsOf(DeltaEvents(st, line.chunk, line.chunk.first.value.delta.value)) == LinePart(st.issued, line)
  {
    var d := line.chunk.first.value.delta.value;
    var content := if d.content != "" then [Content(d.content)] else [];
    var tools := if d.tools != [] then [ToolCall(d.tools)] else [];
    var thoughts := Thoughts(st, line.chunk);
    var plain := if PlainCounts(line) then [line.chunk.plain] else [];
    var told := Sent(st.issued, Items(line.chunk.reasoning));
    assert PartsOf(content) == Nothing.(content := d.content) && PartsOf(tools) == Nothing.(frags := d.tools) by {
      EdgeParts(d);
    }
    assert PartsOf(thoughts) == Nothing.(plain := plain, told := told) by {
      ThoughtParts(st, line);
    }
    assert PartsOf(content + thoughts) == Plus(PartsOf(content), PartsOf(thoughts)) by {
      PartsConcat(content, thoughts);
    }
    assert PartsOf((content + thoughts) + tools) == Plus(PartsOf(content + thoughts), PartsOf(tools)) by {
      PartsConcat(content + thoughts, tools);
    }
    PlusThree(d.content, plain, told, d.tools);
  }

  lemma LineParts(st: State, line: Line)
    ensures PartsOf(Emits(st, line)) == LinePart(st.issued, line)
  {
    if line.Garbage? {
      SingleParts(Error);
    } else if HasDelta(line) {
      DeltaParts(st, line);
    }
  }

  // ----------------------------------------------------------------------- the stream

  /** The reasoning items of all deltas, in order. */
  ghost function AllItems(lines: seq<Line>): seq<(int, string)> {
    if lines == [] then []
    else AllItems(lines[..|lines| - 1])
         + if HasDelta(lines[|lines| - 1]) then Items(lines[|lines| - 1].chunk.reasoning) else []
  }

  lemma {:induction false} SentConcat(issued: map<int, string>, a: seq<(int, string)>, b: seq<(int, string)>)
    ensures IssueAll(issued, a + b) == IssueAll(IssueAll(issued, a), b)
    ensures Sent(issued, a + b) == Sent(issued, a) + Sent(IssueAll(issued, a), b)
  {
    if b == [] {
      assert a + b == a;
    } else {
      var init, last := b[..|b| - 1], b[|b| - 1];
      SentConcat(issued, a, init);
      assert (a + b)[..|a + b| - 1] == a + init && (a + b)[|a + b| - 1] == last;
      var mid := IssueAll(issued, a);
      Assoc(Sent(issued, a), Sent(mid, init), Sends(IssueAll(mid, init), last));
    }
  }

  lemma {:induction false} MemoryLaw(lines: seq<Line>)
    ensures StateOf(lines).issued == IssueAll(map[], AllItems(lines))
  {
    if lines != [] {
      var init, line := lines[..|lines| - 1], lines[|lines| - 1];
      MemoryLaw(init);
      AfterIssued(StateOf(init), line);
      if HasDelta(line) {
        SentConcat(map[], AllItems(init), Items(line.chunk.reasoning));
        if !HasDetails(line.chunk.reasoning) {
          NoDetailsNoItems(line.chunk.reasoning);
        }
      } else {
        assert AllItems(lines) == AllItems(init);
      }
    }
  }

  /** All that the lines carried, kind by kind. */
  ghost function Carried(lines: seq<Line>): Parts {
    Parts(Contents(lines), AllFragments(lines), Plains(lines), Sent(map[], AllItems(lines)), Garbled(lines))
  }

  lemma CarriedAppend(init: seq<Line>, line: Line)
    ensures Carried(init + [line]) == Plus(Carried(init), LinePart(IssueAll(map[], AllItems(init)), line))
  {
    var lines := init + [line];
    assert lines[..|lines| - 1] == init && lines[|lines| - 1] == line;
    SentConcat(map[], AllItems(init), if HasDelta(line) then Items(line.chunk.reasoning) else []);
  }

  lemma EventsAppend(init: seq<Line>, line: Line)
    ensures EventsOf(init + [line]) == EventsOf(init) + Emits(StateOf(init), line)
  {
    assert (init + [line])[..|init|] == init;
  }

  ghost predicate Faithful(lines: seq<Line>) {
    PartsOf(EventsOf(lines)) == Carried(lines)
  }

  lemma OneMoreIsFaithful(init: seq<Line>, line: Line, lines: seq<Line>)
    requires Faithful(init) && lines == init + [line]
    ensures Faithful(lines)
  {
    EventsAppend(init, line);
    CarriedAppend(init, line);
    MemoryLaw(init);
    LineParts(StateOf(init), line);
    PartsConcat(EventsOf(init), Emits(StateOf(init), line));
  }

  lemma Prefixes(lines: seq<Line>, n: nat)
    requires n < |lines|
    ensures lines[..n + 1] == lines[..n] + [lines[n]]
  {
  }

  lemma EventsCarry(lines: seq<Line>)
    ensures Faithful(lines)
  {
    assert Faithful([]) by {
      assert Carried([]) == Nothing;
    }
    assert lines[..0] == [];
    for n := 0 to |lines|
      invariant Faithful(lines[..n])
    {
      Prefixes(lines, n);
      OneMoreIsFaithful(lines[..n], lines[n], lines[..n + 1]);
    }
    assert lines[..|lines|] == lines;
  }

  /** What is read of the stream: all lines before the first end marker, all lines without one. */
  lemma {:induction false} BodyLaw(lines: seq<Line>, n: nat)
    requires n <= |lines| && (forall i | 0 <= i < n :: lines[i] != DoneMark)
    requires n == |lines| || lines[n] == DoneMark
    ensures Body(lines) == lines[..n]
  {
    if n > 0 {
      BodyLaw(lines[1..], n - 1);
      assert lines[..n] == [lines[0]] + lines[1..][..n - 1];
    }
  }

  /** Nothing is lost, doubled or reordered: before the closing event, the content events spell the contents of
      the deltas, the tool-call events hold every fragment, the plain reasoning texts are those that count,
      each choice's reasoning is what the items amount to, and there is one error per garbled line. */
  lemma OutputCarries(lines: seq<Line>, broken: bool)
    ensures var out, body := Output(lines, broken), Body(lines);
      && out != []
      && var sent := PartsOf(out[..|out| - 1]);
        && sent.content == Contents(body) && sent.frags == AllFragments(body) && sent.plain == Plains(body)
        && sent.errors == Garbled(body) && sent.told == Sent(map[], AllItems(body))
  {
    var out := Output(lines, broken);
    assert out[..|out| - 1] == EventsOf(Body(lines));
    EventsCarry(Body(lines));
  }

  /** The lines are told in order: what some lines lead to is the beginning of what more lines do. */
  lemma {:induction false} LinesInOrder(lines: seq<Line>, n: nat)
    requires n <= |lines|
    ensures EventsOf(lines[..n]) <= EventsOf(lines)
    decreases |lines|
  {
    if n < |lines| {
      LinesInOrder(lines[..|lines| - 1], n);
      assert lines[..|lines| - 1][..n] == lines[..n];
    } else {
      assert lines[..n] == lines;
    }
  }

  ghost function Place(e: Event): int {
    match e
    case Content(_) => 0
    case Thinking(_, _) => 1
    case ToolCall(_) => 2
    case _ => 3
  }

  /** Within a line: content first, then reasoning, then tool calls; at most one content event and one with
      tool calls, and none of them empty. */
  lemma LineInOrder(st: State, line: Line)
    ensures var es := Emits(st, line);
      && (forall i, j | 0 <= i < j < |es| ::
            Place(es[i]) <= Place(es[j]) && (Place(es[i]) == Place(es[j]) ==> es[i].Thinking?))
      && (forall i | 0 <= i < |es| :: !(es[i] == Content("")) && !(es[i] == ToolCall([])))
  {
    if HasDelta(line) {
      SentIsThinking(st.issued, Items(line.chunk.reasoning));
      assert forall i | 0 <= i < |Thoughts(st, line.chunk)| :: Thoughts(st, line.chunk)[i].Thinking?;
    }
  }

  // ------------------------------------------------------------- reasoning, item by item

  ghost predicate Within(s: string, t: string) {
    exists i, j :: 0 <= i <= j <= |s| && s[i..j] == t
  }

  lemma WithinLaw(s: string, t: string)
    ensures Contains(s, t) <==> Within(s, t)
  {
    if Contains(s, t) {
      var i :| 0 <= i <= |s| && OccursAt(s, t, i);
      assert s[i..i + |t|] == t;
    }
    if Within(s, t) {
      var i, j :| 0 <= i <= j <= |s| && s[i..j] == t;
      assert OccursAt(s, t, i);
    }
  }

  /** One item, against what was last issued for its choice: what that contains is not told again, of what
      extends it the rest is told, anything else is told whole; what is told, or extends, is remembered. */
  lemma ItemLaw(issued: map<int, string>, k: int, text: string)
    ensures var prior, sends := if k in issued then issued[k] else "", Sends(issued, (k, text));
      && Issue(issued, (k, text)) == (if prior != "" && Within(prior, text) then issued else issued[k := text])
      && sends == if text == "" || (prior != "" && Within(prior, text)) then []
           else if prior != "" && |prior| <= |text| && text[..|prior|] == prior
           then [Thinking(text[|prior|..], Some(k))] else [Thinking(text, Some(k))]
  {
    var prior := if k in issued then issued[k] else "";
    WithinLaw(prior, text);
    if prior != "" && prior <= text && text[|prior|..] == "" {
      assert prior == text && prior[0..|text|] == text;
      assert Within(prior, text);
    }
  }

  ghost function JoinOf(items: seq<(int, string)>, k: int): string {
    if items == [] then ""
    else JoinOf(items[..|items| - 1], k) + if items[|items| - 1].0 == k then items[|items| - 1].1 else ""
  }

  /** Each item of the choice is news: not in the one before it, and not an extension of that. */
  ghost predicate AllNews(items: seq<(int, string)>, k: int) {
    items == [] || (AllNews(items[..|items| - 1], k)
      && (items[|items| - 1].0 == k ==>
            var prior, text := LastOf("", items[..|items| - 1], k), items[|items| - 1].1;
            prior != "" ==> !Within(prior, text) && !(prior <= text)))
  }

  lemma ToldOne(e: Event, k: int)
    ensures Told([e], k) == Word(e, k) && Told([], k) == ""
  {
    ToldAppend([], e, k);
    assert [] + [e] == [e];
  }

  /** One item of news. */
  lemma NewsStep(issued: map<int, string>, k: int, text: string)
    requires Prior(issued, k) == "" || (!Within(Prior(issued, k), text) && !(Prior(issued, k) <= text))
    ensures Prior(Issue(issued, (k, text)), k) == text && Told(Sends(issued, (k, text)), k) == text
  {
    WithinLaw(Prior(issued, k), text);
    ToldOne(Thinking(text, Some(k)), k);
  }

  /** One item of another choice. */
  lemma OtherStep(issued: map<int, string>, item: (int, string), k: int)
    requires item.0 != k
    ensures Prior(Issue(issued, item), k) == Prior(issued, k) && Told(Sends(issued, item), k) == ""
  {
    var out := Out(issued, item);
    if out.Some? {
      ToldOne(Thinking(out.value, Some(item.0)), k);
    }
  }

  /** The other extreme to a cumulative upstream: one that sends news only is told word by word. */
  lemma {:induction false} NewsIsToldVerbatim(items: seq<(int, string)>, k: int)
    requires AllNews(items, k)
    ensures Prior(IssueAll(map[], items), k) == LastOf("", items, k)
    ensures Told(Sent(map[], items), k) == JoinOf(items, k)
  {
    if items != [] {
      var init, item := items[..|items| - 1], items[|items| - 1];
      NewsIsToldVerbatim(init, k);
      if item.0 == k {
        NewsStep(IssueAll(map[], init), k, item.1);
      } else {
        OtherStep(IssueAll(map[], init), item, k);
      }
      ToldConcat(Sent(map[], init), Sends(IssueAll(map[], init), item), k);
    }
  }

  /** Blank is what has the White_Space property of Unicode: twenty-five code points. */
  lemma SpaceLaw(c: char)
    ensures var n := c as int;
      IsSpace(c) <==>
        || 9 <= n <= 13 || n == 32 || n == 133 || n == 160 || n == 5760 || 8192 <= n <= 8202
        || 8232 <= n <= 8233 || n == 8239 || n == 8287 || n == 12288
  {
  }

  // ------------------------------------------------------- the entries of one choice

  ghost predicate Counts(e: Entry) {
    e.known && exists i :: 0 <= i < |e.text| && !IsSpace(e.text[i])
  }

  /** One more entry is kept exactly when it counts and is news; empty texts never are. */
  lemma KeptStep(init: seq<Entry>, e: Entry)
    ensures Kept(init + [e]) == if Counts(e) && (Joined(Kept(init)) == "" || !Within(Joined(Kept(init)), e.text))
        then Kept(init) + [e.text] else Kept(init)
  {
    assert (init + [e])[..|init|] == init;
    WithinLaw(Joined(Kept(init)), e.text);
  }

  lemma WithinMore(s: string, x: string, t: string)
    ensures Within(s, t) ==> Within(s + x, t)
    ensures Within(s + t, t)
  {
    if Within(s, t) {
      var i, j :| 0 <= i <= j <= |s| && s[i..j] == t;
      assert (s + x)[i..j] == t;
    }
    assert (s + t)[|s|..|s + t|] == t;
  }

  ghost predicate Covers(es: seq<Entry>, kept: seq<string>) {
    forall e | e in es && Counts(e) :: Within(Joined(kept), e.text)
  }

  /** What is kept of one choice's entries covers every entry that counts. */
  lemma {:induction false} KeptCovers(es: seq<Entry>)
    ensures Covers(es, Kept(es))
  {
    if es != [] {
      var init, e := es[..|es| - 1], es[|es| - 1];
      KeptCovers(init);
      KeptStep(init, e);
      assert es == init + [e];
      var kept := Kept(init);
      assert (kept + [e.text])[..|kept|] == kept;
      forall d | d in es && Counts(d) ensures Within(Joined(Kept(es)), d.text) {
        WithinMore(Joined(kept), e.text, d.text);
        WithinMore(Joined(kept), "", e.text);
      }
    }
  }

  lemma {:induction false} KeptSpeaks(es: seq<Entry>)
    ensures Kept(es) != [] ==> Joined(Kept(es)) != ""
  {
    if es != [] {
      var init, e := es[..|es| - 1], es[|es| - 1];
      KeptSpeaks(init);
      KeptStep(init, e);
      assert es == init + [e];
      assert (Kept(init) + [e.text])[..|Kept(init)|] == Kept(init);
    }
  }

  /** It makes nothing up. */
  lemma {:induction false} KeptCounts(es: seq<Entry>)
    ensures forall t | t in Kept(es) :: exists e :: e in es && Counts(e) && e.text == t
  {
    if es != [] {
      var init, e := es[..|es| - 1], es[|es| - 1];
      KeptCounts(init);
      KeptStep(init, e);
      assert es == init + [e];
      forall t | t in Kept(es) ensures exists d :: d in es && Counts(d) && d.text == t {
        if t in Kept(init) {
          var d :| d in init && Counts(d) && d.text == t;
          assert d in es;
        } else {
          assert e in es;
        }
      }
    }
  }

  /** And no text of it stands in what was kept before it. */
  lemma {:induction false} KeptIsNews(es: seq<Entry>, i: nat)
    requires 0 < i < |Kept(es)|
    ensures !Within(Joined(Kept(es)[..i]), Kept(es)[i])
  {
    var init, e := es[..|es| - 1], es[|es| - 1];
    var kept := Kept(init);
    KeptStep(init, e);
    assert es == init + [e];
    assert Kept(es)[..i] == kept[..i];
    if i < |kept| {
      KeptIsNews(init, i);
    } else {
      KeptSpeaks(init);
      assert kept[..i] == kept;
    }
  }

  // --------------------------------------------------------------- what the ending carries

  ghost predicate Reports(line: Line) {
    line.Data? && (line.chunk.usage.prompt > 0 || line.chunk.usage.completion > 0 || line.chunk.usage.total > 0)
  }

  lemma {:induction false} NoUsage(lines: seq<Line>)
    requires forall i | 0 <= i < |lines| :: !Reports(lines[i])
    ensures LastUsage(lines) == Usage(0, 0, 0)
  {
    if lines != [] {
      NoUsage(lines[..|lines| - 1]);
      assert !Reports(lines[|lines| - 1]);
    }
  }

  /** The usage that is remembered is that of the last chunk that reports any, zero without one. */
  lemma {:induction false} UsageLaw(lines: seq<Line>, k: nat)
    requires k < |lines| && Reports(lines[k]) && forall j | k < j < |lines| :: !Reports(lines[j])
    ensures LastUsage(lines) == lines[k].chunk.usage
    decreases |lines|
  {
    if k < |lines| - 1 {
      var init := lines[..|lines| - 1];
      assert !Reports(lines[|lines| - 1]) && init[k] == lines[k];
      forall j | k < j < |init| ensures !Reports(init[j]) {
        assert init[j] == lines[j];
      }
      UsageLaw(init, k);
    }
  }

  /** A stream that ends well without a finish reason: its response has the usage, if any was reported. */
  lemma UnfinishedLaw(lines: seq<Line>, broken: bool)
    requires forall i | 0 <= i < |Body(lines)| :: !Finishes(Body(lines)[i])
    requires var out := Output(lines, broken); out[|out| - 1].Done?
    ensures var out, u := Output(lines, broken), LastUsage(Body(lines));
      out[|out| - 1].response == if u.prompt > 0 || u.completion > 0 || u.total > 0 then UsageOnly(u) else Bare
  {
    StateHolds(Body(lines));
    LastIsAFinish(Body(lines));
  }

  /** The fragments of an index are those with it, in order; their arguments are joined in order, and the last
      id and name that are not empty count. */
  lemma FragmentLaw(fs: seq<Fragment>, gs: seq<Fragment>, f: Fragment, i: nat)
    ensures Of(fs + gs, i) == Of(fs, i) + Of(gs, i) && Of([f], i) == if f.index == i then [f] else []
    ensures JoinArgs(fs + gs) == JoinArgs(fs) + JoinArgs(gs) && JoinArgs([f]) == f.args
    ensures LastId(fs + gs) == (if LastId(gs) != "" then LastId(gs) else LastId(fs)) && LastId([f]) == f.id
    ensures LastName(fs + gs) == (if LastName(gs) != "" then LastName(gs) else LastName(fs)) && LastName([f]) == f.name
  {
    OfConcat(fs, gs, i);
    assert [f][..0] == [] && LastId([]) == "" && LastName([]) == "";
    ArgsConcat(fs, gs);
    NamesConcat(fs, gs);
  }

  lemma {:induction false} ArgsConcat(fs: seq<Fragment>, gs: seq<Fragment>)
    ensures JoinArgs(fs + gs) == JoinArgs(fs) + JoinArgs(gs)
  {
    if gs == [] {
      assert fs + gs == fs;
    } else {
      var init, last := gs[..|gs| - 1], gs[|gs| - 1];
      ArgsConcat(fs, init);
      assert (fs + gs)[..|fs + gs| - 1] == fs + init;
      Assoc(JoinArgs(fs), JoinArgs(init), last.args);
    }
  }

  lemma {:induction false} NamesConcat(fs: seq<Fragment>, gs: seq<Fragment>)
    ensures LastId(fs + gs) == if LastId(gs) != "" then LastId(gs) else LastId(fs)
    ensures LastName(fs + gs) == if LastName(gs) != "" then LastName(gs) else LastName(fs)
  {
    if gs == [] {
      assert fs + gs == fs;
    } else {
      NamesConcat(fs, gs[..|gs| - 1]);
      assert (fs + gs)[..|fs + gs| - 1] == fs + gs[..|gs| - 1];
    }
  }
}
