/** The exact detectors of pkg/loopdetection: repeated actions, oscillation and longer cycles over the
    keys of the recent actions. */
module LoopDetection {
  import opened Options

  datatype Detection = Detection(pattern: seq<string>, repeats: nat, critical: bool)

  // ------------------------------------------------------------------- back-to-back blocks

  /** `k` copies of `block` stand back to back from position `j` on. */
  ghost predicate Copies(keys: seq<string>, block: seq<string>, j: nat, k: nat)
    decreases k
  {
    k == 0 || (j + |block| <= |keys| && keys[j..j + |block|] == block && Copies(keys, block, j + |block|, k - 1))
  }

  /** As many copies as there are. */
  ghost function MaxCopies(keys: seq<string>, block: seq<string>, j: nat): nat
    requires block != []
    decreases |keys| - j
  {
    if j + |block| <= |keys| && keys[j..j + |block|] == block then 1 + MaxCopies(keys, block, j + |block|) else 0
  }

  lemma {:induction false} CopiesIff(keys: seq<string>, block: seq<string>, j: nat, k: nat)
    requires block != []
    ensures Copies(keys, block, j, k) <==> k <= MaxCopies(keys, block, j)
    decreases k
  {
    if k > 0 && j + |block| <= |keys| && keys[j..j + |block|] == block {
      CopiesIff(keys, block, j + |block|, k - 1);
    }
  }

  /** Copies take room. */
  lemma {:induction false} CopiesFit(keys: seq<string>, block: seq<string>, j: nat, k: nat)
    requires Copies(keys, block, j, k) && j <= |keys|
    ensures j + |block| * k <= |keys|
    decreases k
  {
    if k > 0 {
      CopiesFit(keys, block, j + |block|, k - 1);
      assert |block| * k == |block| * (k - 1) + |block|;
    }
  }

  /** From `a` up to `b` every key comes again `n` places on. */
  ghost predicate Period(keys: seq<string>, a: nat, b: int, n: nat) {
    b + n <= |keys| && forall x | a <= x < b :: keys[x] == keys[x + n]
  }

  lemma NextBlock(keys: seq<string>, j: nat, n: nat)
    requires j + n + n <= |keys|
    ensures keys[j..j + n] == keys[j + n..j + n + n] <==> Period(keys, j, j + n, n)
  {
    var a, b := keys[j..j + n], keys[j + n..j + n + n];
    if Period(keys, j, j + n, n) {
      forall i | 0 <= i < n ensures a[i] == b[i] {
        assert keys[j + i] == keys[j + i + n];
      }
    }
    if a == b {
      forall x | j <= x < j + n ensures keys[x] == keys[x + n] {
        assert a[x - j] == b[x - j];
      }
    }
  }

  lemma Product(n: nat, k: nat)
    requires k > 0
    ensures n * k == n + n * (k - 1) && n * (k - 1) >= 0
  {
  }

  lemma {:induction false} CopiesArePeriod(keys: seq<string>, j: nat, n: nat, k: nat, total: nat)
    requires n > 0 && k > 0 && total == n * k && j + n <= |keys|
    ensures Copies(keys, keys[j..j + n], j, k) <==> j + total <= |keys| && Period(keys, j, j + total - n, n)
    decreases k
  {
    var block := keys[j..j + n];
    Product(n, k);
    if k == 1 {
      assert Copies(keys, block, j + n, 0);
    } else {
      Product(n, k - 1);
      assert Copies(keys, block, j, k) <==> Copies(keys, block, j + n, k - 1);
      if j + n + n <= |keys| {
        NextBlock(keys, j, n);
        CopiesArePeriod(keys, j + n, n, k - 1, total - n);
        PeriodSplits(keys, j, j + n, j + total - n, n);
      }
    }
  }

  /** Copies of a block are a period, key by key. */
  lemma CopiesLaw(keys: seq<string>, j: nat, n: nat, k: nat)
    requires n > 0 && k > 0 && j + n <= |keys|
    ensures Copies(keys, keys[j..j + n], j, k) <==> j + n * k <= |keys| && Period(keys, j, j + n * k - n, n)
  {
    CopiesArePeriod(keys, j, n, k, n * k);
  }

  lemma PeriodSplits(keys: seq<string>, a: nat, m: nat, b: int, n: nat)
    requires a <= m <= b
    ensures Period(keys, a, b, n) <==> Period(keys, a, m, n) && Period(keys, m, b, n)
  {
  }

  ghost predicate AllSame(s: seq<string>) {
    forall i | 0 <= i < |s| :: s[i] == s[0]
  }

  /** A block of length `len` that is not constant occurs at least `m` times in a row from `s`. */
  ghost predicate CycleAt(keys: seq<string>, s: nat, len: nat, m: nat) {
    s + len <= |keys| && !AllSame(keys[s..s + len]) && Copies(keys, keys[s..s + len], s, m)
  }

  /** A cycle in the keys themselves: from `s` on there are `m` times `len` keys that repeat with that period,
      and the first period holds two different keys. */
  lemma CycleLaw(keys: seq<string>, s: nat, len: nat, m: nat)
    requires len >= 1 && m >= 1
    ensures CycleAt(keys, s, len, m)
      <==> s + len * m <= |keys| && (exists x :: s <= x < s + len && keys[x] != keys[s])
           && forall x | s <= x < s + len * m - len :: keys[x] == keys[x + len]
  {
    assert len * m >= len by { assert len * m == len * (m - 1) + len; }
    if s + len <= |keys| {
      CopiesLaw(keys, s, len, m);
      ConstantBlock(keys, s, len);
    }
  }

  lemma ConstantBlock(keys: seq<string>, s: nat, len: nat)
    requires len >= 1 && s + len <= |keys|
    ensures AllSame(keys[s..s + len]) <==> forall x | s <= x < s + len :: keys[x] == keys[s]
  {
    var block := keys[s..s + len];
    assert forall x | s <= x < s + len :: block[x - s] == keys[x];
    if forall x | s <= x < s + len :: keys[x] == keys[s] {
      forall i | 0 <= i < len ensures block[i] == block[0] {
        assert keys[s + i] == keys[s];
      }
    }
  }

  // --------------------------------------------------------------------------- cycles

  method SliceEqual(a: seq<string>, b: seq<string>) returns (eq: bool)
    ensures eq <==> a == b
  {
    if |a| != |b| {
      return false;
    }
    for i := 0 to |a|
      invariant forall k | 0 <= k < i :: a[k] == b[k]
    {
      if a[i] != b[i] {
        return false;
      }
    }
    return true;
  }

  method IsAllSame(s: seq<string>) returns (same: bool)
    ensures same <==> AllSame(s)
  {
    if |s| <= 1 {
      return true;
    }
    for i := 1 to |s|
      invariant forall k | 0 <= k < i :: s[k] == s[0]
    {
      if s[i] != s[0] {
        return false;
      }
    }
    return true;
  }

  method CountCopies(keys: seq<string>, pattern: seq<string>, start: nat) returns (occurrences: nat)
    requires pattern != []
    ensures occurrences == MaxCopies(keys, pattern, start)
  {
    occurrences := 0;
    var j := start;
    while j + |pattern| <= |keys|
      invariant occurrences + MaxCopies(keys, pattern, j) == MaxCopies(keys, pattern, start)
      decreases |keys| - j
    {
      var eq := SliceEqual(keys[j..j + |pattern|], pattern);
      if !eq {
        return;
      }
      occurrences := occurrences + 1;
      j := j + |pattern|;
    }
  }

  /** What is reported of a cycle: its block, the rightmost place such a block starts at, and how often
      it repeats from there. */
  ghost predicate Reports(d: Detection, keys: seq<string>, len: nat, m: nat) {
    exists s: nat :: RightmostCycle(keys, s, len, m) && d.pattern == keys[s..s + len]
                && d.pattern != [] && d.repeats == MaxCopies(keys, d.pattern, s) && (d.critical <==> d.repeats >= 3)
  }

  ghost predicate RightmostCycle(keys: seq<string>, s: nat, len: nat, m: nat) {
    CycleAt(keys, s, len, m) && forall t: nat | t > s :: !CycleAt(keys, t, len, m)
  }

  lemma CycleFits(keys: seq<string>, s: nat, len: nat, m: nat)
    requires CycleAt(keys, s, len, m)
    ensures s + len * m <= |keys|
  {
    CopiesFit(keys, keys[s..s + len], s, m);
  }

  /** findRepeatingPattern: slide the start from the end backward. */
  method FindRepeatingPattern(keys: seq<string>, len: nat, m: nat) returns (r: Option<Detection>)
    requires len >= 2 && m >= 1
    ensures r.Some? <==> exists s: nat :: CycleAt(keys, s, len, m)
    ensures r.Some? ==> Reports(r.value, keys, len, m)
    ensures r.Some? ==> |r.value.pattern| == len && r.value.repeats >= m && (r.value.critical <==> r.value.repeats >= 3)
  {
    var minRequired := len * m;
    forall s: nat | CycleAt(keys, s, len, m) ensures s + minRequired <= |keys| {
      CycleFits(keys, s, len, m);
    }
    if |keys| < minRequired {
      return None;
    }
    assert minRequired >= len by { assert len * m == len * (m - 1) + len; }
    var start := |keys| - minRequired + 1;
    while start > 0
      invariant start <= |keys| - minRequired + 1
      invariant forall s: nat | s >= start :: !CycleAt(keys, s, len, m)
    {
      start := start - 1;
      var pattern := keys[start..start + len];
      var occurrences := CountCopies(keys, pattern, start);
      CopiesIff(keys, pattern, start, m);
      var same := IsAllSame(pattern);
      if occurrences >= m && !same {
        assert RightmostCycle(keys, start, len, m);
        return Some(Detection(pattern, occurrences, occurrences >= 3));
      }
    }
    return None;
  }

  function Flatten(window: seq<seq<string>>): seq<string> {
    if window == [] then [] else Flatten(window[..|window| - 1]) + window[|window| - 1]
  }

  /** Windows are laid end to end. */
  lemma {:induction false} FlattenLaw(a: seq<seq<string>>, b: seq<seq<string>>, x: seq<string>)
    ensures Flatten([x]) == x && Flatten(a + b) == Flatten(a) + Flatten(b)
    decreases |b|
  {
    assert [x][..0] == [];
    if b == [] {
      assert a + b == a;
    } else {
      var init, last := b[..|b| - 1], b[|b| - 1];
      FlattenLaw(a, init, x);
      assert (a + b)[..|a + b| - 1] == a + init;
      assert Flatten(a) + (Flatten(init) + last) == (Flatten(a) + Flatten(init)) + last;
    }
  }

  ghost predicate HasCycle(keys: seq<string>, len: nat, m: nat) {
    exists s: nat :: CycleAt(keys, s, len, m)
  }

  /** Two copies of two keys need four keys. */
  lemma TooShort(keys: seq<string>, len: nat, m: nat)
    requires |keys| < 4 && len >= 2 && m >= 2
    ensures !HasCycle(keys, len, m)
  {
    assert len * m == len * (m - 2) + len + len;
    forall s: nat ensures !CycleAt(keys, s, len, m) {
      if CycleAt(keys, s, len, m) {
        CycleFits(keys, s, len, m);
      }
    }
  }

  method FlattenWindow(window: seq<seq<string>>) returns (keys: seq<string>)
    ensures keys == Flatten(window)
  {
    keys := [];
    for i := 0 to |window|
      invariant keys == Flatten(window[..i])
    {
      assert window[..i + 1][..i] == window[..i];
      keys := keys + window[i];
    }
    assert window[..|window|] == window;
  }

  /** Lengths in increasing order. */
  method ShortestCycle(keys: seq<string>, maxLen: nat, m: nat) returns (r: Option<Detection>)
    requires m >= 1
    ensures r.Some? <==> exists len :: 2 <= len <= maxLen && HasCycle(keys, len, m)
    ensures r.Some? ==> ShortestReported(r.value, keys, maxLen, m)
  {
    var len := 2;
    while len <= maxLen
      invariant 2 <= len && forall l | 2 <= l < len :: !HasCycle(keys, l, m)
      decreases maxLen + 1 - len
    {
      r := FindRepeatingPattern(keys, len, m);
      if r.Some? {
        assert HasCycle(keys, len, m);
        return;
      }
      assert !HasCycle(keys, len, m);
      len := len + 1;
    }
    return None;
  }

  /** The report is of a length within bounds, and no shorter length has a cycle. */
  ghost predicate ShortestReported(d: Detection, keys: seq<string>, maxLen: nat, m: nat) {
    && 2 <= |d.pattern| <= maxLen && Reports(d, keys, |d.pattern|, m)
    && forall len | 2 <= len < |d.pattern| :: !HasCycle(keys, len, m)
  }

  /** Analyze of the cycle strategy: sound, complete and shortest first. */
  method AnalyzeCycles(window: seq<seq<string>>, maxLen: nat, m: nat) returns (r: Option<Detection>)
    requires m >= 1
    ensures r.Some? <==> |Flatten(window)| >= 4 && exists len :: 2 <= len <= maxLen && HasCycle(Flatten(window), len, m)
    ensures m >= 2 ==> (r.Some? <==> exists len :: 2 <= len <= maxLen && HasCycle(Flatten(window), len, m))
    ensures r.Some? ==> ShortestReported(r.value, Flatten(window), maxLen, m)
  {
    var keys := FlattenWindow(window);
    if |keys| < 4 {
      if m >= 2 {
        forall len | 2 <= len <= maxLen ensures !HasCycle(keys, len, m) {
          TooShort(keys, len, m);
        }
      }
      return None;
    }
    r := ShortestCycle(keys, maxLen, m);
  }

  // ------------------------------------------------------------------- repeated actions

  /** The length of the run of equal keys that ends at `i`. */
  ghost function RunEnding(keys: seq<string>, i: nat): nat
    requires i < |keys|
  {
    if i > 0 && keys[i] == keys[i - 1] then RunEnding(keys, i - 1) + 1 else 1
  }

  /** The last `t` keys up to `i` are equal. */
  ghost predicate EqualRun(keys: seq<string>, i: nat, t: nat) {
    t <= i + 1 <= |keys| && forall j | i - t < j <= i :: keys[j] == keys[i]
  }

  lemma {:induction false} RunEndingIff(keys: seq<string>, i: nat, t: nat)
    requires i < |keys| && t >= 1
    ensures RunEnding(keys, i) >= t <==> EqualRun(keys, i, t)
  {
    if i > 0 && t > 1 {
      RunEndingIff(keys, i - 1, t - 1);
    }
  }

  ghost predicate RunsAt(keys: seq<string>, i: int, threshold: int) {
    1 <= i < |keys| && RunEnding(keys, i) >= threshold
  }

  /** checkConsecutiveRepeats: reports the first run that is long enough. */
  method CheckConsecutiveRepeats(keys: seq<string>, threshold: int) returns (r: Option<Detection>)
    ensures r.Some? <==> |keys| >= threshold && exists i :: RunsAt(keys, i, threshold)
    ensures r.Some? ==> exists i :: RunsAt(keys, i, threshold) && (forall j | 1 <= j < i :: !RunsAt(keys, j, threshold))
                                    && r.value == Detection([keys[i]], RunEnding(keys, i), true)
  {
    if |keys| < threshold {
      return None;
    }
    var count := 1;
    var i := 1;
    while i < |keys|
      invariant 1 <= i && (i <= |keys| ==> count == RunEnding(keys, i - 1))
      invariant forall j | 1 <= j < i :: !RunsAt(keys, j, threshold)
    {
      if keys[i] == keys[i - 1] {
        count := count + 1;
      } else {
        count := 1;
      }
      if count >= threshold {
        assert RunsAt(keys, i, threshold);
        return Some(Detection([keys[i]], count, true));
      }
      i := i + 1;
    }
    return None;
  }

  /** With a threshold of two or more: reported exactly when that many equal keys stand in a row. */
  lemma RepeatsMeanARun(keys: seq<string>, t: nat)
    requires t >= 2
    ensures (|keys| >= t && exists i :: RunsAt(keys, i, t)) <==> exists i: nat :: EqualRun(keys, i, t)
  {
    if i :| RunsAt(keys, i, t) {
      RunEndingIff(keys, i, t);
    }
    if i: nat :| EqualRun(keys, i, t) {
      RunEndingIff(keys, i, t);
      assert RunsAt(keys, i, t);
    }
  }

  // ------------------------------------------------------------------------ oscillation

  /** The last keys that the check looks at. */
  function Recent(keys: seq<string>, limit: nat): seq<string> {
    if |keys| > limit * 2 + 2 then keys[|keys| - (limit * 2 + 2)..] else keys
  }

  ghost predicate OscillatesAt(recent: seq<string>, i: int, limit: nat) {
    0 <= i <= |recent| - 4 && CycleAt(recent, i, 2, limit)
  }

  /** The first place is reported, with all its repeats. */
  ghost predicate ReportsOscillation(d: Detection, recent: seq<string>, limit: nat) {
    exists i ::
      && OscillatesAt(recent, i, limit) && (forall j | 0 <= j < i :: !OscillatesAt(recent, j, limit))
      && d.pattern == recent[i..i + 2] && d.pattern != [] && d.repeats == MaxCopies(recent, d.pattern, i) && !d.critical
  }

  method CountPairs(recent: seq<string>, i: nat) returns (n: nat)
    requires i + 2 <= |recent|
    ensures n == MaxCopies(recent, recent[i..i + 2], i)
  {
    n := 0;
    var j := i;
    while j + 1 < |recent|
      invariant n + MaxCopies(recent, recent[i..i + 2], j) == MaxCopies(recent, recent[i..i + 2], i)
      decreases |recent| - j
    {
      assert recent[j..j + 2] == recent[i..i + 2] <==> recent[j] == recent[i] && recent[j + 1] == recent[i + 1] by {
        assert recent[j..j + 2] == [recent[j], recent[j + 1]] && recent[i..i + 2] == [recent[i], recent[i + 1]];
      }
      if recent[j] == recent[i] && recent[j + 1] == recent[i + 1] {
        n := n + 1;
      } else {
        return;
      }
      j := j + 2;
    }
  }

  /** checkOscillation: the first place in the window where two different keys alternate long enough. */
  method CheckOscillation(keys: seq<string>, limit: nat) returns (r: Option<Detection>)
    ensures r.Some? <==> |keys| >= limit * 2 && exists i :: OscillatesAt(Recent(keys, limit), i, limit)
    ensures r.Some? ==> ReportsOscillation(r.value, Recent(keys, limit), limit)
  {
    if |keys| < limit * 2 {
      return None;
    }
    var recent := Recent(keys, limit);
    var i := 0;
    while i <= |recent| - 4
      invariant 0 <= i
      invariant forall j | 0 <= j < i :: !OscillatesAt(recent, j, limit)
    {
      var a, b := recent[i], recent[i + 1];
      assert recent[i..i + 2] == [a, b];
      assert [a, b][0] == a && [a, b][1] == b;
      if a != b {
        var n := CountPairs(recent, i);
        CopiesIff(recent, [a, b], i, limit);
        if n >= limit {
          assert OscillatesAt(recent, i, limit);
          return Some(Detection([a, b], n, false));
        }
      }
      i := i + 1;
    }
    return None;
  }

  /** With a limit of two or more the scan's own bound on the start loses nothing. */
  lemma OscillationIsComplete(keys: seq<string>, limit: nat)
    requires limit >= 2
    ensures (|keys| >= limit * 2 && exists i :: OscillatesAt(Recent(keys, limit), i, limit))
        <==> HasCycle(Recent(keys, limit), 2, limit)
  {
    var recent := Recent(keys, limit);
    if s: nat :| CycleAt(recent, s, 2, limit) {
      CycleFits(recent, s, 2, limit);
      assert OscillatesAt(recent, s, limit);
    }
  }

  /** From `s` on, `n` keys alternate between two different ones. */
  ghost predicate Alternates(keys: seq<string>, s: nat, n: nat) {
    2 <= n && s + n <= |keys| && keys[s] != keys[s + 1] && forall x | s <= x < s + n - 2 :: keys[x] == keys[x + 2]
  }

  lemma PairCycle(recent: seq<string>, s: nat, limit: nat)
    requires limit >= 1
    ensures CycleAt(recent, s, 2, limit) <==> Alternates(recent, s, limit * 2)
  {
    CycleLaw(recent, s, 2, limit);
    if Alternates(recent, s, limit * 2) {
      assert s <= s + 1 < s + 2 && recent[s + 1] != recent[s];
    }
  }

  lemma RecentLaw(keys: seq<string>, limit: nat, s: nat, n: nat)
    ensures var recent := Recent(keys, limit);
      var k := |keys| - |recent|;
      && |recent| == (if |keys| > limit * 2 + 2 then limit * 2 + 2 else |keys|)
      && (Alternates(recent, s, n) <==> Alternates(keys, k + s, n))
  {
    var recent := Recent(keys, limit);
    var k := |keys| - |recent|;
    assert forall x | 0 <= x < |recent| :: recent[x] == keys[k + x];
    if Alternates(keys, k + s, n) {
      forall x | s <= x < s + n - 2 ensures recent[x] == recent[x + 2] {
        assert keys[k + x] == keys[k + x + 2];
      }
    }
    if Alternates(recent, s, n) {
      forall x | k + s <= x < k + s + n - 2 ensures keys[x] == keys[x + 2] {
        assert recent[x - k] == recent[x - k + 2];
      }
    }
  }

  /** Two different keys alternate limit times among the last limit * 2 + 2. */
  ghost predicate AlternatesLately(keys: seq<string>, limit: nat) {
    exists s: nat :: |keys| - (limit * 2 + 2) <= s && Alternates(keys, s, limit * 2)
  }

  lemma LateCycle(keys: seq<string>, limit: nat, s: nat)
    requires limit >= 2 && CycleAt(Recent(keys, limit), s, 2, limit)
    ensures AlternatesLately(keys, limit)
  {
    PairCycle(Recent(keys, limit), s, limit);
    RecentLaw(keys, limit, s, limit * 2);
    assert Alternates(keys, |keys| - |Recent(keys, limit)| + s, limit * 2);
  }

  lemma LateAlternation(keys: seq<string>, limit: nat, s: nat)
    requires limit >= 2 && |keys| - (limit * 2 + 2) <= s && Alternates(keys, s, limit * 2)
    ensures HasCycle(Recent(keys, limit), 2, limit)
  {
    var k := |keys| - |Recent(keys, limit)|;
    RecentLaw(keys, limit, s - k, limit * 2);
    PairCycle(Recent(keys, limit), s - k, limit);
  }

  /** In the keys themselves: with a limit of two or more, an oscillation is reported exactly when among the
      last limit * 2 + 2 keys two different ones alternate limit times. */
  lemma OscillationLaw(keys: seq<string>, limit: nat)
    requires limit >= 2
    ensures (|keys| >= limit * 2 && exists i :: OscillatesAt(Recent(keys, limit), i, limit))
      <==> AlternatesLately(keys, limit)
  {
    OscillationIsComplete(keys, limit);
    if HasCycle(Recent(keys, limit), 2, limit) {
      var s: nat :| CycleAt(Recent(keys, limit), s, 2, limit);
      LateCycle(keys, limit, s);
    }
    if AlternatesLately(keys, limit) {
      var s: nat :| |keys| - (limit * 2 + 2) <= s && Alternates(keys, s, limit * 2);
      LateAlternation(keys, limit, s);
    }
  }

  // -------------------------------------------------------------- what the reports mean

  /** A reported block stands where the report says and repeats exactly as often as it says. */
  ghost predicate StandsAt(d: Detection, keys: seq<string>, s: nat) {
    && d.pattern != [] && Copies(keys, d.pattern, s, d.repeats) && !Copies(keys, d.pattern, s, d.repeats + 1)
  }

  /** A reported cycle is the last one of its length to start, with all its repeats, critical from three on. */
  lemma ReportLaw(d: Detection, keys: seq<string>, len: nat, m: nat) returns (s: nat)
    requires Reports(d, keys, len, m)
    ensures CycleAt(keys, s, len, m) && forall t: nat | t > s :: !CycleAt(keys, t, len, m)
    ensures d.pattern == keys[s..s + len] && StandsAt(d, keys, s) && (d.critical <==> d.repeats >= 3)
  {
    s :| RightmostCycle(keys, s, len, m) && d.pattern == keys[s..s + len]
         && d.pattern != [] && d.repeats == MaxCopies(keys, d.pattern, s) && (d.critical <==> d.repeats >= 3);
    CopiesIff(keys, d.pattern, s, d.repeats);
    CopiesIff(keys, d.pattern, s, d.repeats + 1);
  }

  /** Of all lengths within bounds the shortest with a cycle is reported. */
  lemma ShortestLaw(d: Detection, keys: seq<string>, maxLen: nat, m: nat)
    requires ShortestReported(d, keys, maxLen, m)
    ensures 2 <= |d.pattern| <= maxLen && HasCycle(keys, |d.pattern|, m)
    ensures forall len | 2 <= len < |d.pattern| :: !HasCycle(keys, len, m)
  {
  }

  /** A reported oscillation is the first of the window, with all its repeats, and never critical. */
  lemma FirstOscillationLaw(d: Detection, recent: seq<string>, limit: nat) returns (i: nat)
    requires ReportsOscillation(d, recent, limit)
    ensures i + 4 <= |recent| && CycleAt(recent, i, 2, limit)
    ensures forall j: nat | j < i :: !CycleAt(recent, j, 2, limit)
    ensures d.pattern == recent[i..i + 2] && StandsAt(d, recent, i) && !d.critical
  {
    i :| OscillatesAt(recent, i, limit) && (forall j | 0 <= j < i :: !OscillatesAt(recent, j, limit))
         && d.pattern == recent[i..i + 2] && d.pattern != []
         && d.repeats == MaxCopies(recent, d.pattern, i) && !d.critical;
    CopiesIff(recent, d.pattern, i, d.repeats);
    CopiesIff(recent, d.pattern, i, d.repeats + 1);
    forall j: nat | j < i ensures !CycleAt(recent, j, 2, limit) {
      assert !OscillatesAt(recent, j, limit);
    }
  }
}
