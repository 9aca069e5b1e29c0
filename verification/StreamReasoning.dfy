/** Cumulative reasoning text is told exactly once, whatever else the stream interleaves. */
module StreamReasoning {
  import opened Options
  import opened StreamText
  import opened StreamFolder

  // --------------------------------------------------------------------- what is told

  ghost function Word(e: Event, k: int): string {
    if e.Thinking? && e.origin == Some(k) then e.text else ""
  }

  /** What the thinking events of one choice say, put together. */
  ghost function Told(es: seq<Event>, k: int): string {
    if es == [] then "" else Told(es[..|es| - 1], k) + Word(es[|es| - 1], k)
  }

  lemma ToldAppend(es: seq<Event>, e: Event, k: int)
    ensures Told(es + [e], k) == Told(es, k) + Word(e, k)
  {
    assert (es + [e])[..|es|] == es;
  }

  lemma {:induction false} ToldConcat(es: seq<Event>, fs: seq<Event>, k: int)
    ensures Told(es + fs, k) == Told(es, k) + Told(fs, k)
  {
    if fs == [] {
      assert es + fs == es;
    } else {
      var init, last := fs[..|fs| - 1], fs[|fs| - 1];
      assert fs == init + [last];
      ToldConcat(es, init, k);
      ToldAppend(es + init, last, k);
      ToldAppend(init, last, k);
      Assoc(es, init, [last]);
      Assoc(Told(es, k), Told(init, k), Word(last, k));
    }
  }

  ghost predicate Silent(es: seq<Event>, k: int) {
    forall i | 0 <= i < |es| :: Word(es[i], k) == ""
  }

  lemma {:induction false} SilentAppend(es: seq<Event>, fs: seq<Event>, k: int)
    requires Silent(fs, k)
    ensures Told(es + fs, k) == Told(es, k)
  {
    if fs == [] {
      assert es + fs == es;
    } else {
      var init, last := fs[..|fs| - 1], fs[|fs| - 1];
      assert fs == init + [last];
      SilentAppend(es, init, k);
      ToldAppend(es + init, last, k);
      Assoc(es, init, [last]);
    }
  }

  // ---------------------------------------------------------------------- growing items

  ghost function LastOf(p: string, items: seq<(int, string)>, k: int): string {
    if items == [] then p
    else if items[|items| - 1].0 == k then items[|items| - 1].1 else LastOf(p, items[..|items| - 1], k)
  }

  /** Each item of choice `k` extends the one before it, the first one extends `p`. */
  ghost predicate Grows(p: string, items: seq<(int, string)>, k: int) {
    items == [] ||
      (Grows(p, items[..|items| - 1], k)
       && (items[|items| - 1].0 == k ==> LastOf(p, items[..|items| - 1], k) <= items[|items| - 1].1))
  }

  lemma ContainedPrefix(prior: string, text: string)
    requires prior <= text && Contains(prior, text)
    ensures prior == text
  {
    var i :| 0 <= i <= |prior| && OccursAt(prior, text, i);
  }

  /** What the stream has told of a choice is what it remembers of it. */
  ghost predicate InStep(issued: map<int, string>, es: seq<Event>, k: int, text: string) {
    Prior(issued, k) == text && Told(es, k) == text
  }

  lemma ItemInStep(issued: map<int, string>, es: seq<Event>, k: int, prior: string, item: (int, string))
    requires InStep(issued, es, k, prior) && (item.0 == k ==> prior <= item.1)
    ensures InStep(Issue(issued, item), es + Sends(issued, item), k, if item.0 == k then item.1 else prior)
  {
    var out := Out(issued, item);
    if out.Some? {
      ToldAppend(es, Thinking(out.value, Some(item.0)), k);
    }
    assert es + [] == es;
    if item.0 == k {
      assert item.1 == prior + item.1[|prior|..];
      if prior != "" && Contains(prior, item.1) {
        ContainedPrefix(prior, item.1);
      }
    }
  }

  lemma {:induction false} ItemsInStep(issued: map<int, string>, es: seq<Event>, k: int, p: string,
                                       items: seq<(int, string)>)
    requires InStep(issued, es, k, p) && Grows(p, items, k)
    ensures InStep(IssueAll(issued, items), es + Sent(issued, items), k, LastOf(p, items, k))
  {
    if items == [] {
      assert es + [] == es;
    } else {
      var init, last := items[..|items| - 1], items[|items| - 1];
      ItemsInStep(issued, es, k, p, init);
      var issued' := IssueAll(issued, init);
      ItemInStep(issued', es + Sent(issued, init), k, LastOf(p, init, k), last);
      Assoc(es, Sent(issued, init), Sends(issued', last));
    }
  }

  // -------------------------------------------------------------------------- the stream

  /** The reasoning a line brings to the stream. */
  ghost function ReasoningIn(line: Line): seq<Reasoning> {
    if line.Data? && line.chunk.first.Some? && line.chunk.first.value.delta.Some? then line.chunk.reasoning else []
  }

  ghost function AllReasoning(lines: seq<Line>): seq<Reasoning> {
    if lines == [] then [] else AllReasoning(lines[..|lines| - 1]) + ReasoningIn(lines[|lines| - 1])
  }

  lemma {:induction false} NoDetailsNoItems(rs: seq<Reasoning>)
    requires forall i | 0 <= i < |rs| :: rs[i].entries == []
    ensures Items(rs) == []
  {
    if rs != [] {
      NoDetailsNoItems(rs[..|rs| - 1]);
      assert rs[|rs| - 1].entries == [];
    }
  }

  lemma {:induction false} ItemsConcat(a: seq<Reasoning>, b: seq<Reasoning>)
    ensures Items(a + b) == Items(a) + Items(b)
  {
    if b == [] {
      assert a + b == a;
    } else {
      var init, r := b[..|b| - 1], b[|b| - 1];
      ItemsConcat(a, init);
      assert (a + b)[..|a + b| - 1] == a + init && (a + b)[|a + b| - 1] == r;
      Assoc(Items(a), Items(init), Labelled(r.choice, Kept(r.entries)));
    }
  }

  lemma {:induction false} GrowsConcat(p: string, a: seq<(int, string)>, b: seq<(int, string)>, k: int)
    ensures Grows(p, a + b, k) <==> Grows(p, a, k) && Grows(LastOf(p, a, k), b, k)
    ensures LastOf(p, a + b, k) == LastOf(LastOf(p, a, k), b, k)
  {
    if b == [] {
      assert a + b == a;
    } else {
      GrowsConcat(p, a, b[..|b| - 1], k);
      assert (a + b)[..|a + b| - 1] == a + b[..|b| - 1];
    }
  }

  lemma LineInStep(st: State, line: Line, es: seq<Event>, k: int, p: string)
    requires InStep(st.issued, es, k, p) && Grows(p, Items(ReasoningIn(line)), k)
    ensures InStep(After(st, line).issued, es + Emits(st, line), k, LastOf(p, Items(ReasoningIn(line)), k))
  {
    AfterIssued(st, line);
    if line.Data? && line.chunk.first.Some? && line.chunk.first.value.delta.Some? {
      DeltaInStep(st, line.chunk, line.chunk.first.value.delta.value, es, k, p);
    } else {
      SilentAppend(es, Emits(st, line), k);
    }
  }

  lemma ThoughtsInStep(st: State, chunk: Chunk, es: seq<Event>, k: int, p: string)
    requires InStep(st.issued, es, k, p) && Grows(p, Items(chunk.reasoning), k)
    ensures var issued' := if HasDetails(chunk.reasoning) then IssueAll(st.issued, Items(chunk.reasoning))
        else st.issued;
      InStep(issued', es + Thoughts(st, chunk), k, LastOf(p, Items(chunk.reasoning), k))
  {
    if HasDetails(chunk.reasoning) {
      ItemsInStep(st.issued, es, k, p, Items(chunk.reasoning));
    } else {
      NoDetailsNoItems(chunk.reasoning);
      SilentAppend(es, Thoughts(st, chunk), k);
    }
  }

  lemma DeltaInStep(st: State, chunk: Chunk, d: Delta, es: seq<Event>, k: int, p: string)
    requires InStep(st.issued, es, k, p) && Grows(p, Items(chunk.reasoning), k)
    ensures var issued' := if HasDetails(chunk.reasoning) then IssueAll(st.issued, Items(chunk.reasoning))
        else st.issued;
      InStep(issued', es + DeltaEvents(st, chunk, d), k, LastOf(p, Items(chunk.reasoning), k))
  {
    var content := if d.content != "" then [Content(d.content)] else [];
    var tools := if d.tools != [] then [ToolCall(d.tools)] else [];
    var thoughts := Thoughts(st, chunk);
    SilentAppend(es, content, k);
    ThoughtsInStep(st, chunk, es + content, k, p);
    SilentAppend((es + content) + thoughts, tools, k);
    Assoc(es, content + thoughts, tools);
    Assoc(es, content, thoughts);
  }

  lemma {:induction false} StreamInStep(lines: seq<Line>, k: int)
    requires Grows("", Items(AllReasoning(lines)), k)
    ensures InStep(StateOf(lines).issued, EventsOf(lines), k, LastOf("", Items(AllReasoning(lines)), k))
  {
    if lines != [] {
      var init, last := lines[..|lines| - 1], lines[|lines| - 1];
      var a, b := Items(AllReasoning(init)), Items(ReasoningIn(last));
      ItemsConcat(AllReasoning(init), ReasoningIn(last));
      GrowsConcat("", a, b, k);
      StreamInStep(init, k);
      LineInStep(StateOf(init), last, EventsOf(init), k, LastOf("", a, k));
    }
  }

  // ---------------------------------------------------------------- a cumulative upstream

  /** The last text that the upstream sent for choice `k`, in an entry of known type. */
  ghost function Latest(rs: seq<Reasoning>, k: int): string {
    if rs == [] then ""
    else
      var r := rs[|rs| - 1];
      if r.choice == k && r.entries != [] && r.entries[0].known then r.entries[0].text else Latest(rs[..|rs| - 1], k)
  }

  /** The upstream repeats all it said so far: at most one entry of choice `k` at a time, and each
      text of known type has the one before it as a prefix. Chunks without entries of `k`, and entries
      of unknown type, may come anywhere. */
  ghost predicate Cumulative(rs: seq<Reasoning>, k: int) {
    rs == [] || (Cumulative(rs[..|rs| - 1], k) && Extends(rs[..|rs| - 1], rs[|rs| - 1], k))
  }

  ghost predicate Extends(before: seq<Reasoning>, r: Reasoning, k: int) {
    r.choice == k && r.entries != [] ==>
      |r.entries| == 1 && (r.entries[0].known ==> Latest(before, k) <= r.entries[0].text)
  }

  ghost function Unblank(t: string): string {
    if Blank(t) then "" else t
  }

  lemma KeptOne(choice: int, e: Entry)
    ensures Labelled(choice, Kept([e])) == if Blank(e.text) || !e.known then [] else [(choice, e.text)]
  {
    assert [e][..0] == [];
    assert Kept([]) == [] && Joined([]) == "";
  }

  lemma GrowsOne(p: string, k: int, t: string)
    ensures Grows(p, [(k, t)], k) <==> p <= t
    ensures LastOf(p, [(k, t)], k) == t
  {
    assert [(k, t)][..0] == [];
  }

  lemma {:induction false} OtherChoice(p: string, items: seq<(int, string)>, k: int)
    requires forall i | 0 <= i < |items| :: items[i].0 != k
    ensures Grows(p, items, k) && LastOf(p, items, k) == p
  {
    if items != [] {
      OtherChoice(p, items[..|items| - 1], k);
    }
  }

  lemma PrefixOfBlank(s: string, t: string)
    requires s <= t && Blank(t)
    ensures Blank(s)
  {
    assert forall i | 0 <= i < |s| :: s[i] == t[i];
  }

  lemma {:induction false} CumulativeGrows(rs: seq<Reasoning>, k: int)
    requires Cumulative(rs, k)
    ensures Grows("", Items(rs), k) && LastOf("", Items(rs), k) == Unblank(Latest(rs, k))
  {
    if rs != [] {
      var init, r := rs[..|rs| - 1], rs[|rs| - 1];
      CumulativeGrows(init, k);
      var tail := Labelled(r.choice, Kept(r.entries));
      var p := LastOf("", Items(init), k);
      GrowsConcat("", Items(init), tail, k);
      if r.choice == k && r.entries != [] {
        var e := r.entries[0];
        assert r.entries == [e];
        KeptOne(k, e);
        if e.known && Blank(e.text) {
          PrefixOfBlank(Latest(init, k), e.text);
        } else if e.known {
          GrowsOne(p, k, e.text);
        }
      } else {
        OtherChoice(p, tail, k);
      }
    }
  }

  /** For a choice whose upstream is cumulative, the thinking events it leads to spell its final text
      exactly once, for chains of any length and whatever other choices, contents and tool calls
      come between. A text of nothing but blanks is never told. */
  lemma CumulativeToldOnce(lines: seq<Line>, k: int)
    requires Cumulative(AllReasoning(lines), k)
    ensures Told(EventsOf(lines), k) == Unblank(Latest(AllReasoning(lines), k))
  {
    CumulativeGrows(AllReasoning(lines), k);
    StreamInStep(lines, k);
  }

  /** The same of a whole run: the closing event tells nothing. */
  lemma OutputToldOnce(lines: seq<Line>, broken: bool, k: int)
    requires Cumulative(AllReasoning(Body(lines)), k)
    ensures Told(Output(lines, broken), k) == Unblank(Latest(AllReasoning(Body(lines)), k))
  {
    CumulativeToldOnce(Body(lines), k);
    var out := Output(lines, broken);
    ToldAppend(EventsOf(Body(lines)), out[|out| - 1], k);
  }
}
