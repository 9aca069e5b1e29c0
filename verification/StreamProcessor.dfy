/** processStream as it is written: one loop over the lines that updates the finish chunk, the usage,
    two accumulator maps and the issued texts, and sends events. It computes StreamFolder.Output. */
module StreamProcessor {
  import opened Options
  import opened StreamText
  import opened StreamFolder

  // ---------------------------------------------------------------- tool-call accumulators

  datatype Head = Head(kind: string, id: string, name: string)

  /** The two accumulator maps. */
  datatype Acc = Acc(heads: map<nat, Head>, builders: map<nat, string>)

  ghost predicate SlotHolds(acc: Acc, i: nat, own: seq<Fragment>) {
    && (i in acc.heads <==> own != [])
    && (i in acc.heads ==> acc.heads[i] == Head(own[0].kind, LastId(own), LastName(own)))
    && JoinArgs(own) == if i in acc.builders then acc.builders[i] else ""
  }

  /** Each index holds what its fragments so far amount to. */
  ghost predicate Accumulates(acc: Acc, fs: seq<Fragment>) {
    forall i: nat :: SlotHolds(acc, i, Of(fs, i))
  }

  function HeadAfter(heads: map<nat, Head>, f: Fragment): Head {
    var h := if f.index in heads then heads[f.index] else Head(f.kind, "", "");
    Head(h.kind, if f.id != "" then f.id else h.id, if f.name != "" then f.name else h.name)
  }

  function AddOne(acc: Acc, f: Fragment): Acc {
    var args := if f.index in acc.builders then acc.builders[f.index] else "";
    Acc(acc.heads[f.index := HeadAfter(acc.heads, f)],
        if f.args != "" then acc.builders[f.index := args + f.args] else acc.builders)
  }

  lemma OwnAppend(own: seq<Fragment>, f: Fragment)
    ensures LastId(own + [f]) == if f.id != "" then f.id else LastId(own)
    ensures LastName(own + [f]) == if f.name != "" then f.name else LastName(own)
    ensures JoinArgs(own + [f]) == JoinArgs(own) + f.args
  {
    assert (own + [f])[..|own|] == own;
  }

  lemma OwnSlot(acc: Acc, f: Fragment, own: seq<Fragment>)
    requires SlotHolds(acc, f.index, own)
    ensures SlotHolds(AddOne(acc, f), f.index, own + [f])
  {
    OwnAppend(own, f);
    assert own == [] ==> LastId(own) == "" && LastName(own) == "";
  }

  lemma OneMore(acc: Acc, fs: seq<Fragment>, f: Fragment)
    requires Accumulates(acc, fs)
    ensures Accumulates(AddOne(acc, f), fs + [f])
  {
    forall i: nat ensures SlotHolds(AddOne(acc, f), i, Of(fs + [f], i)) {
      OfAppend(fs, f, i);
      assert SlotHolds(acc, i, Of(fs, i));
      if i == f.index {
        OwnSlot(acc, f, Of(fs, i));
      }
    }
  }

  method AddFragments(acc: Acc, tools: seq<Fragment>, ghost fs: seq<Fragment>) returns (acc': Acc)
    requires Accumulates(acc, fs)
    ensures Accumulates(acc', fs + tools)
  {
    acc' := acc;
    ghost var all := fs;
    for i := 0 to |tools|
      invariant all == fs + tools[..i] && Accumulates(acc', all)
    {
      OneMore(acc', all, tools[i]);
      acc' := AddOne(acc', tools[i]);
      all := all + [tools[i]];
    }
    assert all == fs + tools;
  }

  lemma {:induction false} MaxIndexFacts(fs: seq<Fragment>, i: nat)
    ensures Of(fs, i) != [] ==> i <= MaxIndex(fs)
    ensures fs != [] ==> Of(fs, MaxIndex(fs)) != []
  {
    if fs != [] {
      var init := fs[..|fs| - 1];
      MaxIndexFacts(init, i);
      if init == [] {
        assert Of(init, MaxIndex(fs)) == [] && MaxIndex(init) == 0;
      }
    }
  }

  lemma KeysAreIndices(acc: Acc, fs: seq<Fragment>)
    requires Accumulates(acc, fs) && fs != []
    ensures MaxIndex(fs) in acc.heads && forall i | i in acc.heads :: i <= MaxIndex(fs)
  {
    MaxIndexFacts(fs, 0);
    assert SlotHolds(acc, MaxIndex(fs), Of(fs, MaxIndex(fs)));
    forall i | i in acc.heads ensures i <= MaxIndex(fs) {
      MaxIndexFacts(fs, i);
      assert SlotHolds(acc, i, Of(fs, i));
    }
  }

  function CallOf(acc: Acc, i: nat): Call {
    if i in acc.heads then
      Call(acc.heads[i].kind, acc.heads[i].id, acc.heads[i].name, if i in acc.builders then acc.builders[i] else "")
    else Call("", "", "", "")
  }

  /** The accumulated calls as a list; indices that never came stay empty. */
  method BuildTools(acc: Acc, ghost fs: seq<Fragment>) returns (tools: seq<Call>)
    requires Accumulates(acc, fs) && fs != []
    ensures tools == Tools(fs)
  {
    KeysAreIndices(acc, fs);
    var maxIndex := LargestKey(acc.heads.Keys);
    tools := FillCalls(acc, maxIndex);
    forall i: nat | i <= maxIndex ensures tools[i] == Assembled(fs, i) {
      assert SlotHolds(acc, i, Of(fs, i));
    }
  }

  method FillCalls(acc: Acc, maxIndex: nat) returns (tools: seq<Call>)
    requires forall i | i in acc.heads :: i <= maxIndex
    ensures |tools| == maxIndex + 1 && forall i | 0 <= i <= maxIndex :: tools[i] == CallOf(acc, i)
  {
    tools := seq(maxIndex + 1, _ => Call("", "", "", ""));
    var left := acc.heads.Keys;
    while left != {}
      invariant left <= acc.heads.Keys && |tools| == maxIndex + 1
      invariant forall i | 0 <= i <= maxIndex :: tools[i] == if i in left then Call("", "", "", "") else CallOf(acc, i)
      decreases |left|
    {
      var i: nat :| i in left;
      left := left - {i};
      tools := tools[i := CallOf(acc, i)];
    }
  }

  method LargestKey(keys: set<nat>) returns (m: nat)
    ensures forall k | k in keys :: k <= m
    ensures keys != {} ==> m in keys
  {
    m := 0;
    var left := keys;
    while left != {}
      invariant left <= keys
      invariant forall k | k in keys && k !in left :: k <= m
      invariant m == 0 || m in keys
      invariant left != keys && m == 0 ==> 0 in keys
      decreases |left|
    {
      var k :| k in left;
      left := left - {k};
      if k > m {
        m := k;
      }
    }
  }

  // ------------------------------------------------------------------------- reasoning

  /** Intra-array dedup: `seen` is all the text kept so far. */
  method KeepEntries(es: seq<Entry>) returns (kept: seq<string>)
    ensures kept == Kept(es)
  {
    kept := [];
    var seen := "";
    for i := 0 to |es|
      invariant kept == Kept(es[..i]) && seen == Joined(kept)
    {
      assert es[..i + 1][..i] == es[..i];
      var text := es[i].text;
      if Blank(text) || !es[i].known || (|seen| > 0 && Contains(seen, text)) {
        continue;
      }
      assert (kept + [text])[..|kept|] == kept;
      seen := seen + text;
      kept := kept + [text];
    }
    assert es[..|es|] == es;
  }

  /** extractReasoningDetailsByChoiceForStream. */
  method ExtractReasoning(rs: seq<Reasoning>) returns (items: seq<(int, string)>, hasDetails: bool)
    ensures items == Items(rs) && (hasDetails <==> HasDetails(rs))
  {
    items, hasDetails := [], false;
    for i := 0 to |rs|
      invariant items == Items(rs[..i]) && (hasDetails <==> exists j :: 0 <= j < i && rs[j].entries != [])
    {
      assert rs[..i + 1][..i] == rs[..i];
      if |rs[i].entries| == 0 {
        assert Kept(rs[i].entries) == [] && Labelled(rs[i].choice, []) == [];
        continue;
      }
      hasDetails := true;
      var kept := KeepEntries(rs[i].entries);
      items := items + seq(|kept|, j requires 0 <= j < |kept| => (rs[i].choice, kept[j]));
      assert items == Items(rs[..i]) + Labelled(rs[i].choice, kept);
    }
    assert rs[..|rs|] == rs;
  }

  /** Cross-chunk dedup: skip what is covered, send the suffix of what grew. */
  method IssueItems(issued: map<int, string>, items: seq<(int, string)>)
    returns (issued': map<int, string>, events: seq<Event>)
    ensures issued' == IssueAll(issued, items) && events == Sent(issued, items)
  {
    issued', events := issued, [];
    for i := 0 to |items|
      invariant issued' == IssueAll(issued, items[..i]) && events == Sent(issued, items[..i])
    {
      assert items[..i + 1][..i] == items[..i];
      var (k, text) := items[i];
      var prior := Prior(issued', k);
      if prior != "" && Contains(prior, text) {
        continue;
      }
      var out := if prior != "" && prior <= text then text[|prior|..] else text;
      issued' := issued'[k := text];
      if out != "" {
        events := events + [Thinking(out, Some(k))];
      }
    }
    assert items[..|items|] == items;
  }

  method Think(issued: map<int, string>, chunk: Chunk) returns (issued': map<int, string>, events: seq<Event>)
    ensures forall st: State | st.issued == issued :: events == Thoughts(st, chunk)
    ensures issued' == if HasDetails(chunk.reasoning) then IssueAll(issued, Items(chunk.reasoning)) else issued
  {
    var items, hasDetails := ExtractReasoning(chunk.reasoning);
    if hasDetails {
      issued', events := IssueItems(issued, items);
    } else {
      issued', events := issued, if chunk.plain != "" then [Thinking(chunk.plain, None)] else [];
    }
  }

  // ------------------------------------------------------------------------- the stream

  lemma {:induction false} BodyPrefix(lines: seq<Line>, i: nat)
    requires i <= |lines| && forall j | 0 <= j < i :: !lines[j].DoneMark?
    ensures i == |lines| || lines[i].DoneMark? ==> Body(lines) == lines[..i]
  {
    if i > 0 {
      BodyPrefix(lines[1..], i - 1);
      assert lines[..i] == [lines[0]] + lines[1..][..i - 1];
    }
  }

  method FinalResponse(last: Option<Finish>, usage: Usage, acc: Acc, ghost st: State) returns (r: Response)
    requires Accumulates(acc, st.frags) && st.last == last && st.usage == usage
    ensures r == Final(st)
  {
    if last.Some? {
      var tools := last.value.own;
      NoKeysNoFragments(acc, st.frags);
      if |acc.heads| > 0 {
        tools := BuildTools(acc, st.frags);
      }
      return Finished(last.value.reason, if usage.NonZero() then usage else last.value.usage, tools);
    }
    return if usage.NonZero() then UsageOnly(usage) else Bare;
  }

  lemma NoKeysNoFragments(acc: Acc, fs: seq<Fragment>)
    requires Accumulates(acc, fs)
    ensures |acc.heads| > 0 <==> fs != []
  {
    if fs != [] {
      KeysAreIndices(acc, fs);
    } else {
      forall i: nat ensures i !in acc.heads {
        assert SlotHolds(acc, i, Of(fs, i));
      }
      assert acc.heads == map[];
    }
  }

  /** The loop's variables stand for the state. */
  datatype Vars = Vars(last: Option<Finish>, usage: Usage, acc: Acc, issued: map<int, string>)

  ghost predicate Stands(v: Vars, st: State) {
    st.last == v.last && st.usage == v.usage && st.issued == v.issued && Accumulates(v.acc, st.frags)
  }

  method ProcessStream(lines: seq<Line>, broken: bool) returns (events: seq<Event>)
    ensures events == Output(lines, broken)
  {
    var v, i;
    v, i, events := ProcessBody(lines);
    BodyPrefix(lines, i);
    ghost var st := StateOf(Body(lines));
    var closing := Error;
    if i < |lines| || (!broken && v.last.Some?) {
      var r := FinalResponse(v.last, v.usage, v.acc, st);
      closing := Done(r);
    }
    assert DoneMark in lines <==> i < |lines|;
    events := events + [closing];
  }

  /** The scanning loop, up to the end marker or the end of the input. */
  method ProcessBody(lines: seq<Line>) returns (v: Vars, i: nat, events: seq<Event>)
    ensures i <= |lines| && (forall j | 0 <= j < i :: !lines[j].DoneMark?) && (i < |lines| ==> lines[i].DoneMark?)
    ensures Stands(v, StateOf(lines[..i])) && events == EventsOf(lines[..i])
  {
    v := Vars(None, Usage(0, 0, 0), Acc(map[], map[]), map[]);
    events, i := [], 0;
    ghost var st := Start;
    StartStands(v);
    while i < |lines| && !lines[i].DoneMark?
      invariant i <= |lines| && forall j | 0 <= j < i :: !lines[j].DoneMark?
      invariant st == StateOf(lines[..i]) && events == EventsOf(lines[..i]) && Stands(v, st)
    {
      NextLine(lines, i);
      var sent;
      v, sent := ProcessLine(lines[i], v, st);
      st, events, i := StateOf(lines[..i + 1]), events + sent, i + 1;
    }
  }

  lemma NextLine(lines: seq<Line>, i: nat)
    requires i < |lines|
    ensures StateOf(lines[..i + 1]) == After(StateOf(lines[..i]), lines[i])
    ensures EventsOf(lines[..i + 1]) == EventsOf(lines[..i]) + Emits(StateOf(lines[..i]), lines[i])
  {
    assert lines[..i + 1][..i] == lines[..i];
  }

  lemma StartStands(v: Vars)
    requires v == Vars(None, Usage(0, 0, 0), Acc(map[], map[]), map[])
    ensures Stands(v, Start)
  {
    forall i: nat ensures SlotHolds(v.acc, i, Of([], i)) {
    }
  }

  /** One line: usage first, then the first choice's content, reasoning and tool calls, then its
      finish reason. */
  method ProcessLine(line: Line, v: Vars, ghost st: State) returns (v': Vars, sent: seq<Event>)
    requires Stands(v, st)
    ensures Stands(v', After(st, line)) && sent == Emits(st, line)
  {
    v', sent := v, if line.Garbage? then [Error] else [];
    if line.Data? {
      var chunk := line.chunk;
      if chunk.usage.NonZero() {
        v' := v'.(usage := chunk.usage);
      }
      if chunk.first.Some? {
        var first := chunk.first.value;
        ghost var st1 := if chunk.usage.NonZero() then st.(usage := chunk.usage) else st;
        assert Stands(v', st1);
        if first.delta.Some? {
          v', sent := ProcessDelta(chunk, first.delta.value, v', st1);
          assert sent == DeltaEvents(st, chunk, first.delta.value);
        }
        if first.finish != "" {
          v' := v'.(last := Some(Finish(first.finish, chunk.usage, first.own)));
        }
      }
    }
  }

  method ProcessDelta(chunk: Chunk, d: Delta, v: Vars, ghost st: State) returns (v': Vars, sent: seq<Event>)
    requires Stands(v, st)
    ensures Stands(v', AfterDelta(st, chunk, d)) && sent == DeltaEvents(st, chunk, d)
  {
    sent := if d.content != "" then [Content(d.content)] else [];
    var issued, thoughts := Think(v.issued, chunk);
    assert thoughts == Thoughts(st, chunk);
    sent := sent + thoughts;
    var acc := v.acc;
    assert st.frags + [] == st.frags;
    if |d.tools| > 0 {
      acc := AddFragments(acc, d.tools, st.frags);
      sent := sent + [ToolCall(d.tools)];
    }
    v' := v.(acc := acc, issued := issued);
  }
}
