/** Byte counts with binary suffixes (pkg/memlimit/memlimit.go): printing, parsing, and the exact
    language and overflow bound of the parser. */
module ByteCount {
  import opened Options
  import opened Positional

  const MAX: int := 0x7FFF_FFFF_FFFF_FFFF

  datatype Unit = None_ | B | KiB | MiB | GiB | TiB

  function Suffix(u: Unit): string {
    match u
    case None_ => ""
    case B => "B"
    case KiB => "KiB"
    case MiB => "MiB"
    case GiB => "GiB"
    case TiB => "TiB"
  }

  function Scale(u: Unit): int {
    match u
    case None_ => 1
    case B => 1
    case KiB => 0x400
    case MiB => 0x10_0000
    case GiB => 0x4000_0000
    case TiB => 0x100_0000_0000
  }

  // --------------------------------------------------------------------- decimal text

  predicate IsDigit(c: char) {
    '0' <= c <= '9'
  }

  predicate AllDigits(s: string) {
    forall i | 0 <= i < |s| :: IsDigit(s[i])
  }

  function Digits(s: string): (ds: seq<nat>)
    requires AllDigits(s)
    ensures |ds| == |s| && DigitsOf(10, ds)
  {
    seq(|s|, i requires 0 <= i < |s| => (s[i] - '0') as nat)
  }

  function Number(s: string): nat
    requires AllDigits(s)
  {
    Value(10, Digits(s))
  }

  function Text(ds: seq<nat>): (s: string)
    requires DigitsOf(10, ds)
    ensures |s| == |ds| && AllDigits(s)
  {
    seq(|ds|, i requires 0 <= i < |ds| => '0' + ds[i] as char)
  }

  /** %d of a number that is not negative. */
  function Decimal(n: nat): (s: string)
    ensures s != "" && AllDigits(s)
  {
    NumeralFacts(10, n);
    if n == 0 then "0" else Text(Numeral(10, n))
  }

  lemma DecimalRoundTrip(n: nat)
    ensures Number(Decimal(n)) == n
  {
    NumeralFacts(10, n);
    if n == 0 {
      assert Digits("0") == [0] && [0][..0] == [];
      assert Value(10, []) == 0;
    } else {
      assert Digits(Text(Numeral(10, n))) == Numeral(10, n);
    }
  }

  predicate Signed(s: string) {
    s != "" && s[0] in {'+', '-'}
  }

  /** strconv.ParseInt(s, 10, 64): an optional sign, digits, a value that fits. */
  function ParseInt(s: string): Option<int> {
    var body := if Signed(s) then s[1..] else s;
    if body == "" || !AllDigits(body) then None
    else
      var v: int := if s[0] == '-' then 0 - Number(body) else Number(body);
      if -MAX - 1 <= v <= MAX then Some(v) else None
  }

  // ------------------------------------------------------------------------- the parser

  function NonNegative(n: Option<int>): Option<int> {
    if n.Some? && n.value >= 0 then n else None
  }

  function UnitAt(c: char): Option<Unit> {
    if c == 'K' then Some(KiB) else if c == 'M' then Some(MiB) else if c == 'G' then Some(GiB)
        else if c == 'T' then Some(TiB) else None
  }

  /** The shift guard: the count must not exceed what the shift leaves of an int64. */
  function Shifted(n: Option<int>, scale: int): Option<int>
    requires scale > 0
  {
    if n.None? || n.value < 0 || n.value > MAX / scale then None else Some(n.value * scale)
  }

  function ParseByteCount(s: string): Option<int> {
    if s == "" then None
    else if IsDigit(s[|s| - 1]) then NonNegative(ParseInt(s))
    else if s[|s| - 1] != 'B' || |s| < 2 then None
    else if IsDigit(s[|s| - 2]) then NonNegative(ParseInt(s[..|s| - 1]))
    else if s[|s| - 2] != 'i' || |s| < 4 || UnitAt(s[|s| - 3]).None? then None
    else Shifted(ParseInt(s[..|s| - 3]), Scale(UnitAt(s[|s| - 3]).value))
  }

  /** The largest suffix that divides the count exactly. */
  function BestUnit(n: int): Unit {
    if n > 0 && n % Scale(TiB) == 0 then TiB
    else if n > 0 && n % Scale(GiB) == 0 then GiB
    else if n > 0 && n % Scale(MiB) == 0 then MiB
    else if n > 0 && n % Scale(KiB) == 0 then KiB
    else B
  }

  function FormatBytes(n: int): string {
    if n < 0 then "-" + Decimal(-n) + Suffix(B) else Decimal(n / Scale(BestUnit(n))) + Suffix(BestUnit(n))
  }

  // ------------------------------------------------------------------ the exact language

  /** `s` is a sign, digits and a suffix that denote `v`; a minus sign only in front of zero. */
  ghost predicate Denotes(s: string, sign: string, d: string, u: Unit, v: int) {
    && sign in {"", "+", "-"} && d != "" && AllDigits(d) && s == sign + d + Suffix(u)
    && v == Number(d) * Scale(u) && v <= MAX && (sign == "-" ==> v == 0)
  }

  lemma ParseIntExact(sign: string, d: string)
    requires sign in {"", "+", "-"} && d != "" && AllDigits(d)
    ensures NonNegative(ParseInt(sign + d)) == if Number(d) <= MAX && (sign == "-" ==> Number(d) == 0)
        then Some(Number(d)) else None
  {
    var s := sign + d;
    assert sign == "" ==> s == d && !Signed(s);
    assert sign != "" ==> Signed(s) && s[1..] == d && s[0] == sign[0];
  }

  lemma GuardIsExact(n: nat, u: Unit)
    ensures n > MAX / Scale(u) <==> n * Scale(u) > MAX
    ensures n * Scale(u) >= n
  {
  }

  lemma ShiftedExact(sign: string, d: string, u: Unit)
    requires sign in {"", "+", "-"} && d != "" && AllDigits(d)
    ensures Shifted(ParseInt(sign + d), Scale(u))
      == if Number(d) * Scale(u) <= MAX && (sign == "-" ==> Number(d) * Scale(u) == 0)
          then Some(Number(d) * Scale(u)) else None
  {
    ParseIntExact(sign, d);
    GuardIsExact(Number(d), u);
  }

  /** What a suffix leaves of a text: the parser finds the suffix that was put there. */
  lemma SuffixFound(body: string, u: Unit)
    requires body != "" && IsDigit(body[|body| - 1])
    ensures ParseByteCount(body + Suffix(u)) == match u
      case None_ => NonNegative(ParseInt(body))
      case B => NonNegative(ParseInt(body))
      case _ => Shifted(ParseInt(body), Scale(u))
  {
    var s := body + Suffix(u);
    match u {
      case None_ => assert s == body;
      case B => assert s[..|s| - 1] == body;
      case KiB => assert s[..|s| - 3] == body && s[|s| - 3] == 'K';
      case MiB => assert s[..|s| - 3] == body && s[|s| - 3] == 'M';
      case GiB => assert s[..|s| - 3] == body && s[|s| - 3] == 'G';
      case TiB => assert s[..|s| - 3] == body && s[|s| - 3] == 'T';
    }
  }

  /** Every well-formed text is parsed to exactly its value, or rejected exactly when the scaled value
      does not fit in an int64. */
  lemma ParseIsExact(sign: string, d: string, u: Unit)
    requires sign in {"", "+", "-"} && d != "" && AllDigits(d)
    ensures ParseByteCount(sign + d + Suffix(u))
      == if Number(d) * Scale(u) <= MAX && (sign == "-" ==> Number(d) * Scale(u) == 0)
          then Some(Number(d) * Scale(u)) else None
  {
    var body := sign + d;
    assert body[|body| - 1] == d[|d| - 1];
    SuffixFound(body, u);
    ParseIntExact(sign, d);
    ShiftedExact(sign, d, u);
  }

  /** ParseInt accepts nothing but a sign and digits. */
  lemma ParseIntForm(s: string) returns (sign: string, d: string)
    requires ParseInt(s).Some?
    ensures sign in {"", "+", "-"} && d != "" && AllDigits(d) && s == sign + d
  {
    if Signed(s) {
      sign, d := s[..1], s[1..];
      assert sign == [s[0]];
    } else {
      sign, d := "", s;
    }
  }

  /** An accepted text ends in the suffix of some unit, behind something ParseInt accepts. */
  lemma SuffixSplit(s: string) returns (body: string, u: Unit)
    requires ParseByteCount(s).Some?
    ensures s == body + Suffix(u) && ParseInt(body).Some?
  {
    if IsDigit(s[|s| - 1]) {
      body, u := s, None_;
    } else if IsDigit(s[|s| - 2]) {
      body, u := s[..|s| - 1], B;
      assert s == body + [s[|s| - 1]];
    } else {
      body, u := s[..|s| - 3], UnitAt(s[|s| - 3]).value;
      assert s == body + [s[|s| - 3], s[|s| - 2], s[|s| - 1]];
      assert Suffix(u) == [s[|s| - 3], 'i', 'B'];
    }
  }

  lemma AcceptedDenotes(s: string, v: int) returns (sign: string, d: string, u: Unit)
    requires ParseByteCount(s) == Some(v)
    ensures Denotes(s, sign, d, u, v)
  {
    var body;
    body, u := SuffixSplit(s);
    sign, d := ParseIntForm(body);
    ParseIsExact(sign, d, u);
  }

  /** The parser accepts exactly the texts that denote a value, with that value. */
  lemma AcceptsExactly(s: string, v: int)
    ensures ParseByteCount(s) == Some(v) <==> exists sign, d, u :: Denotes(s, sign, d, u, v)
  {
    if ParseByteCount(s) == Some(v) {
      var sign, d, u := AcceptedDenotes(s, v);
    }
    if sign, d, u :| Denotes(s, sign, d, u, v) {
      ParseIsExact(sign, d, u);
    }
  }

  lemma ExactQuotient(n: nat, u: Unit)
    requires n % Scale(u) == 0
    ensures n / Scale(u) * Scale(u) == n
  {
    match u {
      case None_ =>
      case B =>
      case KiB =>
      case MiB =>
      case GiB =>
      case TiB =>
    }
  }

  lemma UnitRoundTrip(n: int, u: Unit)
    requires 0 <= n <= MAX && n % Scale(u) == 0
    ensures ParseByteCount(Decimal(n / Scale(u)) + Suffix(u)) == Some(n)
  {
    var q := n / Scale(u);
    ExactQuotient(n, u);
    DecimalRoundTrip(q);
    ParseIsExact("", Decimal(q), u);
    assert "" + Decimal(q) == Decimal(q);
  }

  /** Printing and parsing back is the identity on every count that is not negative. */
  lemma RoundTrip(n: int)
    requires 0 <= n <= MAX
    ensures ParseByteCount(FormatBytes(n)) == Some(n)
  {
    UnitRoundTrip(n, BestUnit(n));
  }

  // --------------------------------------------------------------- in plain numbers

  /** Decimal text is positional: a further digit is worth its distance from '0'. */
  lemma NumberLaw(s: string, c: char)
    requires AllDigits(s) && IsDigit(c)
    ensures Number("") == 0 && Number(s + [c]) == Number(s) * 10 + (c as int - '0' as int)
  {
    assert Digits("") == [] && Digits(s + [c]) == Digits(s) + [(c - '0') as nat];
    ValueAppend(10, Digits(s), (c - '0') as nat);
  }

  /** The suffixes and what they stand for, powers of 1024. */
  ghost predicate Denomination(suffix: string, scale: int) {
    || (suffix == "TiB" && scale == 1024 * 1024 * 1024 * 1024)
    || (suffix == "GiB" && scale == 1024 * 1024 * 1024)
    || (suffix == "MiB" && scale == 1024 * 1024)
    || (suffix == "KiB" && scale == 1024)
    || (suffix == "B" && scale == 1)
  }

  /** Digits before a suffix are parsed to their number times what the suffix stands for, as long as that is
      less than 2^63. */
  lemma ParsesInNumbers(d: string, suffix: string, scale: int)
    requires d != "" && AllDigits(d) && Denomination(suffix, scale)
    ensures ParseByteCount(d + suffix)
      == if Number(d) * scale < 0x8000_0000_0000_0000 then Some(Number(d) * scale) else None
    ensures ParseByteCount(d) == if Number(d) < 0x8000_0000_0000_0000 then Some(Number(d) as int) else None
  {
    ParseIsExact("", d, None_);
    ParseIsExact("", d, B);
    ParseIsExact("", d, KiB);
    ParseIsExact("", d, MiB);
    ParseIsExact("", d, GiB);
    ParseIsExact("", d, TiB);
    assert "" + d == d && d + "" == d;
  }

  /** No suffix stands for more that divides the count. */
  lemma BestIsLargest(n: int, suffix: string, scale: int)
    requires n > 0 && Denomination(suffix, scale) && n % scale == 0
    ensures scale <= Scale(BestUnit(n))
  {
    assert scale in {0x100_0000_0000, 0x4000_0000, 0x10_0000, 0x400, 1};
  }

  lemma BestDivides(n: int)
    requires n > 0
    ensures var u := BestUnit(n); Denomination(Suffix(u), Scale(u)) && n % Scale(u) == 0
  {
  }

  /** `suffix` divides the count, and no other one that does stands for more. */
  ghost predicate LargestThatDivides(n: int, suffix: string, scale: int) {
    && Denomination(suffix, scale) && n % scale == 0
    && forall s, sc | Denomination(s, sc) && n % sc == 0 :: sc <= scale
  }

  lemma BestIsLargestThatDivides(n: int)
    requires n > 0
    ensures LargestThatDivides(n, Suffix(BestUnit(n)), Scale(BestUnit(n)))
  {
    BestDivides(n);
    forall s, sc | Denomination(s, sc) && n % sc == 0 ensures sc <= Scale(BestUnit(n)) {
      BestIsLargest(n, s, sc);
    }
  }

  /** What is printed of a count: digits and the largest suffix that divides it. */
  lemma FormatLaw(n: int) returns (suffix: string, scale: int)
    requires n > 0
    ensures LargestThatDivides(n, suffix, scale) && FormatBytes(n) == Decimal(n / scale) + suffix
  {
    var u := BestUnit(n);
    BestIsLargestThatDivides(n);
    suffix, scale := Suffix(u), Scale(u);
  }

  /** Zero is printed as bytes. */
  lemma ZeroFormat()
    ensures FormatBytes(0) == "0B"
  {
    assert BestUnit(0) == B && Decimal(0) == "0";
  }

  /** So is a negative count, behind a minus sign, and it is not parsed back. */
  lemma NegativeFormat(m: nat)
    requires m > 0
    ensures FormatBytes(0 - m) == "-" + Decimal(m) + "B" && ParseByteCount(FormatBytes(0 - m)) == None
  {
    NegativeIsRefused(m);
  }

  lemma NegativeIsRefused(m: nat)
    requires m > 0
    ensures ParseByteCount("-" + Decimal(m) + "B") == None
  {
    DecimalRoundTrip(m);
    ParseIsExact("-", Decimal(m), B);
  }
}
