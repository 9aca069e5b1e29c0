/** JSON string literals as encoding/json writes them (section 7 of RFC 8259, with the HTML-safe
    escapes on), and why a literal can be read back from the front of any text. */
module JsonText {
  /** The escapes that have a letter of their own. */
  const Short := map['"' := '"', '\\' := '\\', 8 as char := 'b', 12 as char := 'f', '\n' := 'n', '\r' := 'r',
      '\t' := 't']

  predicate NeedsHex(c: char) {
    (c as int < 0x20 && c !in Short) || c in {'<', '>', '&'} || c as int == 0x2028 || c as int == 0x2029
  }

  function HexDigit(n: nat): char
    requires n < 16
  {
    "0123456789abcdef"[n]
  }

  function Hex4(n: nat): (h: string)
    requires n < 0x10000
    ensures |h| == 4
  {
    [HexDigit(n / 4096), HexDigit(n / 256 % 16), HexDigit(n / 16 % 16), HexDigit(n % 16)]
  }

  function Escape(c: char): (e: string)
    ensures e != "" && e[0] != '"'
  {
    if c in Short then ['\\', Short[c]]
    else if NeedsHex(c) then
      ['\\', 'u'] + Hex4(c as int)
    else [c]
  }

  function Body(s: string): string {
    if s == "" then "" else Escape(s[0]) + Body(s[1..])
  }

  function Quote(s: string): string {
    ['"'] + Body(s) + ['"']
  }

  lemma HexInjective(m: nat, n: nat)
    requires m < 16 && n < 16 && HexDigit(m) == HexDigit(n)
    ensures m == n
  {
  }

  lemma ShortInjective(c: char, d: char)
    requires c in Short && d in Short && Short[c] == Short[d]
    ensures c == d && Short[c] != 'u'
  {
  }

  lemma Positional(n: nat)
    ensures n == n / 4096 * 4096 + n / 256 % 16 * 256 + n / 16 % 16 * 16 + n % 16
  {
    assert n / 256 == n / 4096 * 16 + n / 256 % 16;
    assert n / 16 == n / 256 * 16 + n / 16 % 16;
  }

  lemma Hex4Injective(m: nat, n: nat)
    requires m < 0x10000 && n < 0x10000 && Hex4(m) == Hex4(n)
    ensures m == n
  {
    assert Hex4(m)[0] == Hex4(n)[0] && Hex4(m)[1] == Hex4(n)[1] && Hex4(m)[2] == Hex4(n)[2] && Hex4(m)[3] == Hex4(n)[3];
    HexInjective(m / 4096, n / 4096);
    HexInjective(m / 256 % 16, n / 256 % 16);
    HexInjective(m / 16 % 16, n / 16 % 16);
    HexInjective(m % 16, n % 16);
    Positional(m);
    Positional(n);
  }

  /** Escapes form a prefix code: the first escaped character can be read off any text. */
  lemma EscapeReadable(c: char, d: char, x: string, y: string)
    requires Escape(c) + x == Escape(d) + y
    ensures c == d && x == y
  {
    var t := Escape(c) + x;
    var e, f := Escape(c), Escape(d);
    assert forall i | 0 <= i < |e| :: t[i] == e[i];
    assert forall i | 0 <= i < |f| :: t[i] == f[i];
    assert e[0] == f[0];
    if e[0] == '\\' {
      assert e[1] == f[1];
      if c in Short && d in Short {
        ShortInjective(c, d);
      } else if c !in Short && d !in Short {
        assert e[2..] == f[2..] == t[2..6];
        Hex4Injective(c as int, d as int);
      } else if c in Short {
        ShortInjective(c, c);
      } else {
        ShortInjective(d, d);
      }
    }
    assert x == t[|e|..] && y == t[|f|..];
  }

  /** What stands after the opening quote of a literal that `x` follows. */
  ghost function Tail(s: string, x: string): (t: string)
    ensures t != ""
  {
    Body(s) + ['"'] + x
  }

  lemma TailUnfolds(s: string, x: string)
    ensures s == "" ==> Tail(s, x) == ['"'] + x
    ensures s != "" ==> Tail(s, x) == Escape(s[0]) + Tail(s[1..], x) && Tail(s, x)[0] != '"'
  {
  }

  /** A literal can be read back from the front of any text: its contents and what follows. */
  lemma {:induction false} TailReadable(s: string, u: string, x: string, y: string)
    requires Tail(s, x) == Tail(u, y)
    ensures s == u && x == y
  {
    TailUnfolds(s, x);
    TailUnfolds(u, y);
    assert s == "" <==> u == "";
    if s == "" {
      assert x == (['"'] + x)[1..] && y == (['"'] + y)[1..];
    } else {
      EscapeReadable(s[0], u[0], Tail(s[1..], x), Tail(u[1..], y));
      TailReadable(s[1..], u[1..], x, y);
      assert s == [s[0]] + s[1..] && u == [u[0]] + u[1..];
    }
  }

  lemma QuoteUnfolds(s: string, x: string)
    ensures Quote(s) + x == ['"'] + Tail(s, x) && Tail(s, x) == (['"'] + Tail(s, x))[1..]
  {
  }

  lemma QuoteReadable(s: string, u: string, x: string, y: string)
    requires Quote(s) + x == Quote(u) + y
    ensures s == u && x == y
  {
    QuoteUnfolds(s, x);
    QuoteUnfolds(u, y);
    TailReadable(s, u, x, y);
  }
}
