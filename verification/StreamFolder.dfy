/** The stream as a whole: what processStream sends for any sequence of lines, and the laws it keeps. */
module StreamFolder {
  import opened Options
  import opened StreamText

  /** The last chunk that carried a finish reason. */
  datatype Finish = Finish(reason: string, usage: Usage, own: seq<Call>)

  datatype State = State(last: Option<Finish>, usage: Usage, frags: seq<Fragment>, issued: map<int, string>)

  const Start := State(None, Usage(0, 0, 0), [], map[])

  // ------------------------------------------------------------------------ the fold

  ghost function AfterDelta(st: State, chunk: Chunk, d: Delta): State {
    st.(frags := st.frags + d.tools,
        issued := if HasDetails(chunk.reasoning) then IssueAll(st.issued, Items(chunk.reasoning)) else st.issued)
  }

  ghost function After(st: State, line: Line): State {
    if !line.Data? then st
    else
      var chunk := line.chunk;
      var st1 := if chunk.usage.NonZero() then st.(usage := chunk.usage) else st;
      if chunk.first.None? then st1
      else
        var first := chunk.first.value;
        var st2 := if first.delta.Some? then AfterDelta(st1, chunk, first.delta.value) else st1;
        if first.finish != "" then st2.(last := Some(Finish(first.finish, chunk.usage, first.own))) else st2
  }

  ghost function Thoughts(st: State, chunk: Chunk): seq<Event> {
    if HasDetails(chunk.reasoning) then Sent(st.issued, Items(chunk.reasoning))
    else if chunk.plain != "" then [Thinking(chunk.plain, None)] else []
  }

  ghost function DeltaEvents(st: State, chunk: Chunk, d: Delta): seq<Event> {
    (if d.content != "" then [Content(d.content)] else []) + Thoughts(st, chunk)
        + (if d.tools != [] then [ToolCall(d.tools)] else [])
  }

  ghost function Emits(st: State, line: Line): seq<Event> {
    match line
    case Garbage => [Error]
    case Data(chunk) =>
      if chunk.first.Some? && chunk.first.value.delta.Some?
          then DeltaEvents(st, chunk, chunk.first.value.delta.value) else []
    case _ => []
  }

  ghost function StateOf(lines: seq<Line>): State {
    if lines == [] then Start else After(StateOf(lines[..|lines| - 1]), lines[|lines| - 1])
  }

  ghost function EventsOf(lines: seq<Line>): seq<Event> {
    if lines == [] then []
    else EventsOf(lines[..|lines| - 1]) + Emits(StateOf(lines[..|lines| - 1]), lines[|lines| - 1])
  }

  ghost function Final(st: State): Response {
    if st.last.Some? then
      var f := st.last.value;
      Finished(f.reason, if st.usage.NonZero() then st.usage else f.usage,
               if st.frags != [] then Tools(st.frags) else f.own)
    else if st.usage.NonZero() then UsageOnly(st.usage)
    else Bare
  }

  /** The lines before the first end marker. */
  ghost function Body(lines: seq<Line>): seq<Line> {
    if lines == [] || lines[0].DoneMark? then [] else [lines[0]] + Body(lines[1..])
  }

  /** Everything processStream sends; `broken` tells that reading failed after the last line. */
  ghost function Output(lines: seq<Line>, broken: bool): seq<Event> {
    var body := Body(lines);
    var st := StateOf(body);
    EventsOf(body) + [if DoneMark in lines || (!broken && st.last.Some?) then Done(Final(st)) else Error]
  }

  // ------------------------------------------------------------------------ the ending

  ghost predicate NoDone(es: seq<Event>) {
    forall i | 0 <= i < |es| :: !es[i].Done?
  }

  lemma {:induction false} SentIsThinking(issued: map<int, string>, items: seq<(int, string)>)
    ensures forall i | 0 <= i < |Sent(issued, items)| :: Sent(issued, items)[i].Thinking?
  {
    if items != [] {
      SentIsThinking(issued, items[..|items| - 1]);
    }
  }

  lemma EmitsNoDone(st: State, line: Line)
    ensures NoDone(Emits(st, line))
  {
    if line.Data? {
      SentIsThinking(st.issued, Items(line.chunk.reasoning));
      assert NoDone(Thoughts(st, line.chunk));
    }
  }

  lemma {:induction false} BodySendsNoDone(lines: seq<Line>)
    ensures NoDone(EventsOf(lines))
  {
    if lines != [] {
      BodySendsNoDone(lines[..|lines| - 1]);
      EmitsNoDone(StateOf(lines[..|lines| - 1]), lines[|lines| - 1]);
    }
  }

  /** A chunk whose first choice carries a finish reason. */
  ghost predicate Finishes(line: Line) {
    line.Data? && line.chunk.first.Some? && line.chunk.first.value.finish != ""
  }

  lemma {:induction false} LastIsAFinish(lines: seq<Line>)
    ensures StateOf(lines).last.Some? <==> exists i :: 0 <= i < |lines| && Finishes(lines[i])
  {
    if lines != [] {
      var init := lines[..|lines| - 1];
      LastIsAFinish(init);
      if StateOf(init).last.Some? {
        var i :| 0 <= i < |init| && Finishes(init[i]);
        assert Finishes(lines[i]);
      }
      if i :| 0 <= i < |lines| && Finishes(lines[i]) {
        assert i < |init| ==> Finishes(init[i]);
      }
    }
  }

  /** At most one done event, always last; it comes exactly when an end marker was read or, with the
      reading unbroken, some chunk carried a finish reason. Otherwise an error comes last. */
  lemma OneDoneAtTheEnd(lines: seq<Line>, broken: bool)
    ensures var out := Output(lines, broken);
      && out != [] && NoDone(out[..|out| - 1])
      && (out[|out| - 1].Done? <==>
            DoneMark in lines || (!broken && exists i :: 0 <= i < |Body(lines)| && Finishes(Body(lines)[i])))
      && (!out[|out| - 1].Done? ==> out[|out| - 1] == Error)
  {
    BodySendsNoDone(Body(lines));
    LastIsAFinish(Body(lines));
    var out := Output(lines, broken);
    assert out[..|out| - 1] == EventsOf(Body(lines));
  }

  // ------------------------------------------------------------------ what done carries

  /** The last usage that is not zero. */
  ghost function LastUsage(lines: seq<Line>): Usage {
    if lines == [] then Usage(0, 0, 0)
    else if lines[|lines| - 1].Data? && lines[|lines| - 1].chunk.usage.NonZero() then lines[|lines| - 1].chunk.usage
    else LastUsage(lines[..|lines| - 1])
  }

  /** The tool-call fragments a line adds. */
  ghost function FragmentsIn(line: Line): seq<Fragment> {
    if line.Data? && line.chunk.first.Some? && line.chunk.first.value.delta.Some?
        then line.chunk.first.value.delta.value.tools else []
  }

  ghost function AllFragments(lines: seq<Line>): seq<Fragment> {
    if lines == [] then [] else AllFragments(lines[..|lines| - 1]) + FragmentsIn(lines[|lines| - 1])
  }

  ghost function LastFinish(lines: seq<Line>): Option<First> {
    if lines == [] then None
    else if Finishes(lines[|lines| - 1]) then lines[|lines| - 1].chunk.first
    else LastFinish(lines[..|lines| - 1])
  }

  /** One line's effect on each part of the state. */
  lemma AfterParts(st: State, line: Line)
    ensures var st' := After(st, line);
      && st'.usage == (if line.Data? && line.chunk.usage.NonZero() then line.chunk.usage else st.usage)
      && st'.frags == st.frags + FragmentsIn(line)
      && st'.last == if Finishes(line)
          then Some(Finish(line.chunk.first.value.finish, line.chunk.usage, line.chunk.first.value.own)) else st.last
  {
  }

  lemma AfterIssued(st: State, line: Line)
    ensures After(st, line).issued ==
      if line.Data? && line.chunk.first.Some? && line.chunk.first.value.delta.Some? && HasDetails(line.chunk.reasoning)
      then IssueAll(st.issued, Items(line.chunk.reasoning)) else st.issued
  {
  }

  lemma {:induction false} StateHolds(lines: seq<Line>)
    ensures var st := StateOf(lines);
      && st.usage == LastUsage(lines) && st.frags == AllFragments(lines)
      && (st.last.Some? <==> LastFinish(lines).Some?)
      && (st.last.Some? ==>
          st.last.value.reason == LastFinish(lines).value.finish && st.last.value.own == LastFinish(lines).value.own)
      && (st.last.Some? && st.last.value.usage.NonZero() ==> st.usage.NonZero())
  {
    if lines != [] {
      StateHolds(lines[..|lines| - 1]);
      AfterParts(StateOf(lines[..|lines| - 1]), lines[|lines| - 1]);
    }
  }

  /** A done event that carries a finish response has the last non-zero usage of any chunk, and every
      tool call is exactly the fragments of its own index, however the indices interleave: arguments
      joined in order, the last id and name, the first type. */
  lemma DoneCarries(lines: seq<Line>, broken: bool, i: nat)
    requires var out := Output(lines, broken); out[|out| - 1].Done? && out[|out| - 1].response.Finished?
    ensures var out, body := Output(lines, broken), Body(lines);
      var r, fs := out[|out| - 1].response, AllFragments(body);
      && LastFinish(body).Some? && r.reason == LastFinish(body).value.finish
      && (r.usage.NonZero() || LastUsage(body).NonZero() ==> r.usage == LastUsage(body))
      && (fs == [] ==> r.tools == LastFinish(body).value.own)
      && (fs != [] ==> |r.tools| == MaxIndex(fs) + 1)
      && (fs != [] && i < |r.tools| && Of(fs, i) != [] ==>
            && r.tools[i].args == JoinArgs(Of(fs, i)) && r.tools[i].id == LastId(Of(fs, i))
            && r.tools[i].name == LastName(Of(fs, i)) && r.tools[i].kind == Of(fs, i)[0].kind)
  {
    StateHolds(Body(lines));
  }
}
