/** The three-tier token verdict cache (pkg/modelscache/tokens.go) as lock sections over a bounded
    recency list, and what holds of every answer in every interleaving. The token store behind it is
    an oracle; a token's hash stands for its plaintext. */
module TokenCache {
  import opened Options
  import opened Recency

  /** `rights` stands for the permissions a token carries. */
  datatype Token = Token(id: string, expiresAt: Option<int>, rights: string)

  datatype Verdict = NotFound | BadFormat | TokenExpired

  /** The inner store vouches (with a token or with nil), denies, is unreachable, or fails in a way
      that belongs to neither class. */
  datatype StoreAnswer = Vouch(token: Option<Token>) | Deny(verdict: Verdict) | Unreachable | Unclassified

  datatype Entry =
    | Positive(token: Option<Token>, cachedAt: int, freshUntil: int)
    | Negative(verdict: Verdict, cachedAt: int)

  datatype Limits = Limits(positiveTTL: int, negativeTTL: int, staleCap: int, lruCap: nat, indexCap: nat)

  datatype Cache = Cache(entries: seq<(string, Entry)>, idToHash: map<string, string>, idOrder: seq<string>)

  datatype Reply = Allow(token: Option<Token>) | Refuse(verdict: Verdict) | Fail

  // ---------------------------------------------------------------------- lock sections

  /** The definitive cached answer, if there is one. */
  function Definitive(e: Option<Entry>, l: Limits, now: int): Option<Reply> {
    if e.None? then None
    else match e.value
      case Positive(token, _, freshUntil) => if now < freshUntil then Some(Allow(token)) else None
      case Negative(verdict, cachedAt) => if now - cachedAt <= l.negativeTTL then Some(Refuse(verdict)) else None
  }

  /** What an unreachable store leaves: a positive entry that is not too old. */
  function DegradedReply(e: Option<Entry>, l: Limits, now: int): Reply {
    if e.Some? && e.value.Positive? && e.value.token.Some? && now - e.value.cachedAt <= l.staleCap
    then Allow(e.value.token) else Fail
  }

  function FreshUntil(l: Limits, clamp: Option<int>, now: int): int {
    if clamp.Some? && clamp.value < now + l.positiveTTL then clamp.value else now + l.positiveTTL
  }

  /** The reverse index with one more id: a new id joins the queue and may push the oldest one out. */
  function IndexAfter(rows: map<string, string>, queue: seq<string>, cap: nat, id: string, hash: string)
    : (map<string, string>, seq<string>)
  {
    if id == "" then (rows, queue)
    else if id in rows then (rows[id := hash], queue)
    else
      var order := queue + [id];
      if |order| > cap then ((rows - {order[0]})[id := hash], order[1..]) else (rows[id := hash], order)
  }

  /** Only a token has an id to index. */
  function TokenIndexed(rows: map<string, string>, queue: seq<string>, cap: nat, token: Option<Token>, hash: string)
    : (map<string, string>, seq<string>)
  {
    if token.Some? then IndexAfter(rows, queue, cap, token.value.id, hash) else (rows, queue)
  }

  function Installed(c: Cache, l: Limits, hash: string, token: Option<Token>, clamp: Option<int>, now: int): Cache {
    var (rows, queue) := TokenIndexed(c.idToHash, c.idOrder, l.indexCap, token, hash);
    Cache(Put(c.entries, hash, Positive(token, now, FreshUntil(l, clamp, now)), l.lruCap), rows, queue)
  }

  function Denied(c: Cache, l: Limits, hash: string, verdict: Verdict, now: int): Cache {
    c.(entries := Put(c.entries, hash, Negative(verdict, now), l.lruCap))
  }

  /** Drop the entry of an indexed token; a deletion also forgets the index row. */
  function Dropped(c: Cache, id: string, forget: bool): Cache {
    if id !in c.idToHash then c
    else c.(entries := Removed(c.entries, c.idToHash[id]), idToHash := if forget then c.idToHash - {id} else c.idToHash)
  }

  // ------------------------------------------------------------------- interleaved calls

  /** What the store said and what the cache did, in order. Evictions leave no trace. */
  datatype Event =
    | Answered(hash: string, answer: StoreAnswer)
    | Created(hash: string, token: Option<Token>)
    | Installs(hash: string, token: Option<Token>, clamp: Option<int>, at: int)
    | Denies(hash: string, verdict: Verdict, at: int)
    | Drops(hash: string)

  /** A finished validation remembers how it ended and the log at that moment. */
  datatype How = Malformed | FromCache | FromStore(answer: StoreAnswer) | Degraded

  datatype Phase = Peeking | Asking | Storing(answer: StoreAnswer) | Done(reply: Reply, how: How, log: seq<Event>)

  datatype Call = Call(hash: string, now: int, phase: Phase)

  /** `minting` holds the creations that the store made and the cache has not installed yet. */
  datatype World = World(cache: Cache, calls: map<nat, Call>, minting: map<nat, Minted>, log: seq<Event>)

  datatype Minted = Minted(hash: string, token: Option<Token>)

  datatype Move =
    | Begin(call: nat, wellFormed: bool, hash: string, now: int)
    | Peek(call: nat)
    | Ask(call: nat, answer: StoreAnswer)
    | Finish(call: nat)
    | StoreCreates(mint: nat, hash: string, token: Option<Token>)
    | InstallCreated(mint: nat, clamp: Option<int>, now: int)
    | Drop(id: string, forget: bool)

  ghost predicate Fits(w: World, m: Move) {
    match m
    case Begin(i, _, _, _) => i !in w.calls
    case Peek(i) => i in w.calls && w.calls[i].phase.Peeking?
    case Ask(i, _) => i in w.calls && w.calls[i].phase.Asking?
    case Finish(i) => i in w.calls && w.calls[i].phase.Storing?
    case StoreCreates(k, _, _) => k !in w.minting
    case InstallCreated(k, _, _) => k in w.minting
    case Drop(_, _) => true
  }

  ghost function Moved(w: World, i: nat, ph: Phase): World
    requires i in w.calls
  {
    w.(calls := w.calls[i := w.calls[i].(phase := ph)])
  }

  /** The last section of a validation, by the store's answer. */
  ghost function Finished(w: World, l: Limits, i: nat): World
    requires i in w.calls && w.calls[i].phase.Storing?
  {
    var c := w.calls[i];
    var answer := c.phase.answer;
    match answer
    case Vouch(token) =>
      var clamp := if token.Some? then token.value.expiresAt else None;
      var log := w.log + [Installs(c.hash, token, clamp, c.now)];
      Moved(w, i, Done(Allow(token), FromStore(answer), log))
        .(cache := Installed(w.cache, l, c.hash, token, clamp, c.now), log := log)
    case Deny(verdict) =>
      var log := w.log + [Denies(c.hash, verdict, c.now)];
      Moved(w, i, Done(Refuse(verdict), FromStore(answer), log))
        .(cache := Denied(w.cache, l, c.hash, verdict, c.now), log := log)
    case Unreachable =>
      var reply := DegradedReply(Find(w.cache.entries, c.hash), l, c.now);
      Moved(w, i, Done(reply, if reply.Allow? then Degraded else FromStore(answer), w.log))
    case Unclassified => Moved(w, i, Done(Fail, FromStore(answer), w.log))
  }

  ghost function Step(w: World, l: Limits, m: Move): World
    requires Fits(w, m)
  {
    match m
    case Begin(i, wellFormed, hash, now) =>
      var ph := if wellFormed then Peeking else Done(Refuse(BadFormat), Malformed, w.log);
      w.(calls := w.calls[i := Call(hash, now, ph)])
    case Peek(i) =>
      var r := Definitive(Find(w.cache.entries, w.calls[i].hash), l, w.calls[i].now);
      Moved(w, i, if r.Some? then Done(r.value, FromCache, w.log) else Asking)
    case Ask(i, answer) => Moved(w, i, Storing(answer)).(log := w.log + [Answered(w.calls[i].hash, answer)])
    case Finish(i) => Finished(w, l, i)
    case StoreCreates(k, hash, token) =>
      w.(minting := w.minting[k := Minted(hash, token)], log := w.log + [Created(hash, token)])
    case InstallCreated(k, clamp, now) =>
      var m := w.minting[k];
      World(Installed(w.cache, l, m.hash, m.token, clamp, now), w.calls, w.minting - {k},
            w.log + [Installs(m.hash, m.token, clamp, now)])
    case Drop(id, forget) =>
      w.(cache := Dropped(w.cache, id, forget),
         log := if id in w.cache.idToHash then w.log + [Drops(w.cache.idToHash[id])] else w.log)
  }

  ghost function Run(w: World, l: Limits, ms: seq<Move>): World
    decreases |ms|
  {
    if ms == [] then w else Run(if Fits(w, ms[0]) then Step(w, l, ms[0]) else w, l, ms[1..])
  }

  const Empty := World(Cache([], map[], []), map[], map[], [])

  // -------------------------------------------------------------------------- history

  ghost predicate Concerns(e: Event, hash: string) {
    (e.Installs? || e.Denies? || e.Drops?) && e.hash == hash
  }

  /** The last thing that happened to a hash in the cache, evictions aside. */
  ghost function Last(log: seq<Event>, hash: string): Option<Event> {
    if log == [] then None
    else if Concerns(log[|log| - 1], hash) then Some(log[|log| - 1])
    else Last(log[..|log| - 1], hash)
  }

  lemma LastAppend(log: seq<Event>, e: Event, hash: string)
    ensures Last(log + [e], hash) == if Concerns(e, hash) then Some(e) else Last(log, hash)
  {
    assert (log + [e])[..|log|] == log;
  }

  /** The store itself stood up for this token under this hash. */
  ghost predicate Vouched(log: seq<Event>, hash: string, token: Option<Token>) {
    Answered(hash, Vouch(token)) in log || Created(hash, token) in log
  }

  /** A cache entry is what the last event for its hash put there. */
  ghost predicate Matches(e: Entry, last: Option<Event>, l: Limits) {
    last.Some? && match e
      case Positive(token, at, until) =>
        && last.value.Installs? && last.value.token == token && last.value.at == at
        && until == FreshUntil(l, last.value.clamp, at)
      case Negative(verdict, at) => last.value.Denies? && last.value.verdict == verdict && last.value.at == at
  }
}
