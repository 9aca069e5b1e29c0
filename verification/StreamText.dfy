/** What a chunked chat stream carries (pkg/providers/openai.go): tool-call fragments, usage and
    cumulative reasoning text, and what folding them should yield. */
module StreamText {
  import opened Options

  datatype Usage = Usage(prompt: int, completion: int, total: int) {
    predicate NonZero() {
      prompt > 0 || completion > 0 || total > 0
    }
  }

  /** A tool-call fragment as one chunk carries it. */
  datatype Fragment = Fragment(index: nat, kind: string, id: string, name: string, args: string)

  datatype Call = Call(kind: string, id: string, name: string, args: string)

  /** One reasoning entry; `known` tells that its type is reasoning.text or absent. */
  datatype Entry = Entry(text: string, known: bool)

  /** The reasoning entries of one choice (of its delta, or of its message where the delta has none). */
  datatype Reasoning = Reasoning(choice: int, entries: seq<Entry>)

  datatype Delta = Delta(content: string, tools: seq<Fragment>)

  /** The first choice of a chunk; `own` are the tool calls of a message it may carry. */
  datatype First = First(delta: Option<Delta>, finish: string, own: seq<Call>)

  /** A parsed chunk: its first choice if any, the reasoning entries of all choices, and the plain
      reasoning text that counts when there are no entries. */
  datatype Chunk = Chunk(usage: Usage, first: Option<First>, reasoning: seq<Reasoning>, plain: string)

  datatype Line = Skipped | DoneMark | Garbage | Data(chunk: Chunk)

  datatype Response = Finished(reason: string, usage: Usage, tools: seq<Call>) | UsageOnly(usage: Usage) | Bare

  /** `origin` is the choice whose entries a thinking event came from. */
  datatype Event =
    | Content(text: string)
    | Thinking(text: string, origin: Option<int>)
    | ToolCall(tools: seq<Fragment>)
    | Done(response: Response)
    | Error

  // ------------------------------------------------------------------ tool-call fragments

  /** The fragments of one index, in order. */
  ghost function Of(fs: seq<Fragment>, i: nat): seq<Fragment> {
    if fs == [] then []
    else
      var rest := Of(fs[..|fs| - 1], i);
      if fs[|fs| - 1].index == i then rest + [fs[|fs| - 1]] else rest
  }

  ghost function JoinArgs(fs: seq<Fragment>): string {
    if fs == [] then "" else JoinArgs(fs[..|fs| - 1]) + fs[|fs| - 1].args
  }

  /** The last id, or name, that is not empty. */
  ghost function LastId(fs: seq<Fragment>): string {
    if fs == [] then "" else if fs[|fs| - 1].id != "" then fs[|fs| - 1].id else LastId(fs[..|fs| - 1])
  }

  ghost function LastName(fs: seq<Fragment>): string {
    if fs == [] then "" else if fs[|fs| - 1].name != "" then fs[|fs| - 1].name else LastName(fs[..|fs| - 1])
  }

  /** What the fragments of one index amount to; an index without fragments is an empty call. */
  ghost function Assembled(fs: seq<Fragment>, i: nat): Call {
    var own := Of(fs, i);
    if own == [] then Call("", "", "", "") else Call(own[0].kind, LastId(own), LastName(own), JoinArgs(own))
  }

  ghost function MaxIndex(fs: seq<Fragment>): nat {
    if fs == [] then 0
    else if fs[|fs| - 1].index > MaxIndex(fs[..|fs| - 1]) then fs[|fs| - 1].index else MaxIndex(fs[..|fs| - 1])
  }

  ghost function Tools(fs: seq<Fragment>): seq<Call> {
    seq(MaxIndex(fs) + 1, i requires 0 <= i <= MaxIndex(fs) => Assembled(fs, i))
  }

  lemma OfAppend(fs: seq<Fragment>, f: Fragment, i: nat)
    ensures Of(fs + [f], i) == if f.index == i then Of(fs, i) + [f] else Of(fs, i)
  {
    assert (fs + [f])[..|fs|] == fs;
  }

  /** Fragments of other indices, wherever they stand, leave a call alone. */
  lemma {:induction false} OfConcat(fs: seq<Fragment>, gs: seq<Fragment>, i: nat)
    ensures Of(fs + gs, i) == Of(fs, i) + Of(gs, i)
  {
    if gs == [] {
      assert fs + gs == fs;
    } else {
      var init, last := gs[..|gs| - 1], gs[|gs| - 1];
      OfConcat(fs, init, i);
      assert fs + gs == (fs + init) + [last];
      OfAppend(fs + init, last, i);
    }
  }

  // --------------------------------------------------------------------- reasoning text

  predicate IsSpace(c: char) {
    var n := c as int;
    n in {9, 10, 11, 12, 13, 32, 0x85, 0xA0, 0x1680, 0x2028, 0x2029, 0x202F, 0x205F, 0x3000} || 0x2000 <= n <= 0x200A
  }

  predicate Blank(s: string) {
    forall i | 0 <= i < |s| :: IsSpace(s[i])
  }

  predicate OccursAt(s: string, t: string, i: nat) {
    i + |t| <= |s| && s[i..i + |t|] == t
  }

  predicate Contains(s: string, t: string) {
    exists i | 0 <= i <= |s| :: OccursAt(s, t, i)
  }

  /** What the extraction keeps of one choice's entries: no blank text, no unknown type, nothing that
      the text kept so far already contains. */
  ghost function Kept(es: seq<Entry>): seq<string> {
    if es == [] then []
    else
      var rest, e := Kept(es[..|es| - 1]), es[|es| - 1];
      if Blank(e.text) || !e.known || (Joined(rest) != "" && Contains(Joined(rest), e.text)) then rest
          else rest + [e.text]
  }

  ghost function Joined(ts: seq<string>): string {
    if ts == [] then "" else Joined(ts[..|ts| - 1]) + ts[|ts| - 1]
  }

  /** What is kept of one choice, as (choice, text) pairs. */
  ghost function Labelled(choice: int, kept: seq<string>): seq<(int, string)> {
    seq(|kept|, i requires 0 <= i < |kept| => (choice, kept[i]))
  }

  ghost function Items(rs: seq<Reasoning>): seq<(int, string)> {
    if rs == [] then [] else Items(rs[..|rs| - 1]) + Labelled(rs[|rs| - 1].choice, Kept(rs[|rs| - 1].entries))
  }

  ghost predicate HasDetails(rs: seq<Reasoning>) {
    exists i :: 0 <= i < |rs| && rs[i].entries != []
  }

  /** The stream's memory of what it last issued, per choice, and the text to send now. */
  function Prior(issued: map<int, string>, k: int): string {
    if k in issued then issued[k] else ""
  }

  function Out(issued: map<int, string>, item: (int, string)): Option<string> {
    var prior := Prior(issued, item.0);
    if prior != "" && Contains(prior, item.1) then None
    else
      var out := if prior != "" && prior <= item.1 then item.1[|prior|..] else item.1;
      if out == "" then None else Some(out)
  }

  function Issue(issued: map<int, string>, item: (int, string)): map<int, string> {
    var prior := Prior(issued, item.0);
    if prior != "" && Contains(prior, item.1) then issued else issued[item.0 := item.1]
  }

  ghost function IssueAll(issued: map<int, string>, items: seq<(int, string)>): map<int, string> {
    if items == [] then issued else Issue(IssueAll(issued, items[..|items| - 1]), items[|items| - 1])
  }

  ghost function Sends(issued: map<int, string>, item: (int, string)): seq<Event> {
    var out := Out(issued, item);
    if out.Some? then [Thinking(out.value, Some(item.0))] else []
  }

  ghost function Sent(issued: map<int, string>, items: seq<(int, string)>): seq<Event> {
    if items == [] then []
    else Sent(issued, items[..|items| - 1]) + Sends(IssueAll(issued, items[..|items| - 1]), items[|items| - 1])
  }

  lemma Assoc<T>(a: seq<T>, b: seq<T>, c: seq<T>)
    ensures a + (b + c) == (a + b) + c
  {
  }
}
