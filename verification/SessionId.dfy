/** Session ids of the OpenCode provider (pkg/providers/opencodego.go): a hash prefix in hexadecimal
    and base 62. The hash itself is an input. */
module SessionId {
  import opened Positional
  import J = JsonText

  const CHARSET := "0123456789" + ("ABCDEFGHIJKLM" + "NOPQRSTUVWXYZ") + ("abcdefghijklm" + "nopqrstuvwxyz")

  function CodeOf(i: nat): int {
    if i < 10 then 48 + i else if i < 36 then 55 + i else 61 + i
  }

  lemma DigitAt(i: nat)
    requires i < 10
    ensures "0123456789"[i] as int == 48 + i
  {
  }

  lemma UpperAt(i: nat)
    requires i < 13
    ensures "ABCDEFGHIJKLM"[i] as int == 65 + i && "NOPQRSTUVWXYZ"[i] as int == 78 + i
  {
  }

  lemma LowerAt(i: nat)
    requires i < 13
    ensures "abcdefghijklm"[i] as int == 97 + i && "nopqrstuvwxyz"[i] as int == 110 + i
  {
  }

  lemma CharAt(i: nat)
    requires i < 62
    ensures |CHARSET| == 62 && CHARSET[i] as int == CodeOf(i)
  {
    if i < 10 {
      DigitAt(i);
    } else if i < 23 {
      UpperAt(i - 10);
    } else if i < 36 {
      UpperAt(i - 23);
    } else if i < 49 {
      LowerAt(i - 36);
    } else {
      LowerAt(i - 49);
    }
  }

  lemma CharsetFacts()
    ensures |CHARSET| == 62 && forall i, j | 0 <= i < j < 62 :: CHARSET[i] < CHARSET[j]
  {
    forall i, j | 0 <= i < j < 62 ensures CHARSET[i] < CHARSET[j] {
      CharAt(i);
      CharAt(j);
    }
  }

  function Chars(ds: seq<nat>): (s: string)
    requires DigitsOf(62, ds)
    ensures |s| == |ds|
  {
    CharsetFacts();
    seq(|ds|, i requires 0 <= i < |ds| => CHARSET[ds[i]])
  }

  lemma CharsInjective(ds: seq<nat>, es: seq<nat>)
    requires DigitsOf(62, ds) && DigitsOf(62, es) && Chars(ds) == Chars(es)
    ensures ds == es
  {
    CharsetFacts();
    forall i | 0 <= i < |ds| ensures ds[i] == es[i] {
      assert Chars(ds)[i] == Chars(es)[i];
    }
  }

  // ------------------------------------------------------------------------- base 62

  /** The numeral of `n`, padded with zeros to a width. */
  function Padded(n: nat, width: nat): seq<nat> {
    var ds := Numeral(62, n);
    if |ds| < width then Zeros(width - |ds|) + ds else ds
  }

  /** Every number comes back; below 62^width the numeral has exactly that width. */
  lemma PaddedRoundTrip(n: nat, width: nat)
    ensures DigitsOf(62, Padded(n, width)) && Value(62, Padded(n, width)) == n
    ensures n < Pow(62, width) <==> |Padded(n, width)| == width
  {
    var ds := Numeral(62, n);
    NumeralFacts(62, n);
    if |ds| < width {
      ZerosLead(62, width - |ds|, ds);
    }
    if n < Pow(62, width) {
      NumeralFits(62, n, width);
    } else if |Padded(n, width)| == width {
      ValueBound(62, Padded(n, width));
    }
  }

  function Reversed<T>(s: seq<T>): (r: seq<T>)
    ensures |r| == |s| && forall i | 0 <= i < |s| :: r[i] == s[|s| - 1 - i]
  {
    seq(|s|, i requires 0 <= i < |s| => s[|s| - 1 - i])
  }

  method ReverseInPlace(a: array<char>)
    modifies a
    ensures a[..] == Reversed(old(a[..]))
  {
    var i, j := 0, a.Length - 1;
    while i < j
      invariant 0 <= i <= a.Length && j == a.Length - 1 - i
      invariant forall k | 0 <= k < i :: a[k] == old(a[a.Length - 1 - k]) && a[a.Length - 1 - k] == old(a[k])
      invariant forall k | i <= k <= j :: a[k] == old(a[k])
    {
      a[i], a[j] := a[j], a[i];
      i, j := i + 1, j - 1;
    }
  }

  /** The digits come out least significant first. */
  method DigitsBackward(n: nat) returns (out: string)
    ensures DigitsOf(62, Numeral(62, n)) && Reversed(out) == Chars(Numeral(62, n))
  {
    NumeralFacts(62, n);
    CharsetFacts();
    var m := n;
    out := "";
    while m > 0
      invariant |Numeral(62, m)| + |out| == |Numeral(62, n)|
      invariant Numeral(62, m) == Numeral(62, n)[..|Numeral(62, m)|]
      invariant forall k | 0 <= k < |out| :: out[k] == CHARSET[Numeral(62, n)[|Numeral(62, n)| - 1 - k]]
      decreases m
    {
      DivMod(m, 62);
      assert Numeral(62, m)[|Numeral(62, m)| - 1] == m % 62;
      out := out + [CHARSET[m % 62]];
      m := m / 62;
    }
  }

  lemma ZerosPrintAsZero(k: nat, ds: seq<nat>)
    requires DigitsOf(62, ds)
    ensures Chars(Zeros(k) + ds) == seq(k, _ => '0') + Chars(ds)
  {
    CharAt(0);
    assert CHARSET[0] == '0';
  }

  /** encodeBase62Padded. */
  method EncodeBase62Padded(n: nat, width: nat) returns (text: string)
    ensures DigitsOf(62, Padded(n, width)) && text == Chars(Padded(n, width))
  {
    PaddedRoundTrip(n, width);
    if n == 0 {
      ZerosPrintAsZero(width, []);
      assert Zeros(width) + [] == Padded(n, width);
      return seq(width, _ => '0');
    }
    text := EncodeBase62(n);
    if |text| < width {
      ZerosPrintAsZero(width - |text|, Numeral(62, n));
      text := seq(width - |text|, _ => '0') + text;
    }
  }

  method EncodeBase62(n: nat) returns (text: string)
    ensures DigitsOf(62, Numeral(62, n)) && text == Chars(Numeral(62, n))
  {
    var out := DigitsBackward(n);
    var a := new char[|out|](i requires 0 <= i < |out| => out[i]);
    assert a[..] == out;
    ReverseInPlace(a);
    text := a[..];
  }

  // ----------------------------------------------------------------------- session ids

  type byte = x: int | 0 <= x < 256

  function Naturals(bs: seq<byte>): (ns: seq<nat>)
    ensures |ns| == |bs| && DigitsOf(256, ns) && forall i | 0 <= i < |bs| :: ns[i] == bs[i]
  {
    seq(|bs|, i requires 0 <= i < |bs| => bs[i] as nat)
  }

  function Hex(bs: seq<byte>): (s: string)
    ensures |s| == 2 * |bs|
  {
    if bs == [] then "" else [J.HexDigit(bs[0] / 16), J.HexDigit(bs[0] % 16)] + Hex(bs[1..])
  }

  lemma {:induction false} HexInjective(bs: seq<byte>, cs: seq<byte>)
    requires Hex(bs) == Hex(cs)
    ensures bs == cs
  {
    if bs != [] {
      assert |cs| == |bs|;
      assert Hex(bs)[0] == Hex(cs)[0] && Hex(bs)[1] == Hex(cs)[1];
      J.HexInjective(bs[0] / 16, cs[0] / 16);
      J.HexInjective(bs[0] % 16, cs[0] % 16);
      assert Hex(bs[1..]) == Hex(bs)[2..] && Hex(cs[1..]) == Hex(cs)[2..];
      HexInjective(bs[1..], cs[1..]);
      assert bs == [bs[0]] + bs[1..] && cs == [cs[0]] + cs[1..];
    }
  }

  const PREFIX := "ses_"

  lemma EightyBitsFit()
    ensures Pow(256, 10) < Pow(62, 14)
  {
    assert Pow(256, 5) == 1099511627776 && Pow(256, 10) == 1208925819614629174706176;
    assert Pow(62, 7) == 3521614606208 && Pow(62, 14) == 12401769434657526912139264;
  }

  ghost function Base62Slot(hash: seq<byte>): (s: string)
    requires |hash| >= 16
    ensures |s| == 14
  {
    var ns := Naturals(hash[6..16]);
    ValueBound(256, ns);
    EightyBitsFit();
    PaddedRoundTrip(Value(256, ns), 14);
    Chars(Padded(Value(256, ns), 14))
  }

  ghost function SessionIdOf(hash: seq<byte>): string
    requires |hash| >= 16
  {
    PREFIX + Hex(hash[..6]) + Base62Slot(hash)
  }

  /** DeriveOpenCodeGoSessionID, from the hash on. */
  method DeriveSessionId(hash: seq<byte>) returns (id: string)
    requires |hash| == 32
    ensures id == SessionIdOf(hash) && |id| == 30
  {
    var slot := EncodeBase62Padded(Value(256, Naturals(hash[6..16])), 14);
    id := PREFIX + Hex(hash[..6]) + slot;
    assert slot == Base62Slot(hash);
  }

  lemma Base62SlotInjective(g: seq<byte>, h: seq<byte>)
    requires |g| >= 16 && |h| >= 16 && Base62Slot(g) == Base62Slot(h)
    ensures g[6..16] == h[6..16]
  {
    var x, y := Naturals(g[6..16]), Naturals(h[6..16]);
    PaddedRoundTrip(Value(256, x), 14);
    PaddedRoundTrip(Value(256, y), 14);
    CharsInjective(Padded(Value(256, x), 14), Padded(Value(256, y), 14));
    ValueInjective(256, x, y);
    forall i | 0 <= i < 10 ensures g[6..16][i] == h[6..16][i] {
      assert x[i] == y[i];
    }
  }

  /** An id always has thirty characters and determines the sixteen hash bytes it was made of. */
  lemma SessionIdInjective(g: seq<byte>, h: seq<byte>)
    requires |g| >= 16 && |h| >= 16
    ensures |SessionIdOf(g)| == 30
    ensures SessionIdOf(g) == SessionIdOf(h) <==> g[..16] == h[..16]
  {
    var a, b := SessionIdOf(g), SessionIdOf(h);
    assert g[..16][..6] == g[..6] && h[..16][..6] == h[..6];
    assert g[..16][6..] == g[6..16] && h[..16][6..] == h[6..16];
    if a == b {
      assert Hex(g[..6]) == a[4..16] && Hex(h[..6]) == b[4..16];
      HexInjective(g[..6], h[..6]);
      assert Base62Slot(g) == a[16..] && Base62Slot(h) == b[16..];
      Base62SlotInjective(g, h);
      assert g[..16] == g[..6] + g[6..16] && h[..16] == h[..6] + h[6..16];
    }
  }

  // --------------------------------------------------------------- character by character

  function NibbleOf(h: char): int {
    if '0' <= h <= '9' then (h - '0') as int else if 'a' <= h <= 'f' then 10 + (h - 'a') as int else -1
  }

  lemma NibbleLaw(n: nat)
    requires n < 16
    ensures NibbleOf(J.HexDigit(n)) == n
  {
    assert "0123456789abcdef"[n] == if n < 10 then '0' + n as char else 'a' + (n - 10) as char;
  }

  /** Each byte is its two hexadecimal digits, the higher first. */
  lemma {:induction false} HexLaw(bs: seq<byte>, i: nat)
    requires i < |bs|
    ensures var hi, lo := NibbleOf(Hex(bs)[2 * i]), NibbleOf(Hex(bs)[2 * i + 1]);
      0 <= hi < 16 && 0 <= lo < 16 && bs[i] == hi * 16 + lo
  {
    if i == 0 {
      NibbleLaw(bs[0] / 16);
      NibbleLaw(bs[0] % 16);
    } else {
      HexLaw(bs[1..], i - 1);
      assert Hex(bs)[2 * i] == Hex(bs[1..])[2 * (i - 1)] && Hex(bs)[2 * i + 1] == Hex(bs[1..])[2 * (i - 1) + 1];
    }
  }

  /** A base-62 digit: 0 to 9, then A to Z, then a to z. */
  function DigitValue(c: char): int {
    if '0' <= c <= '9' then (c - '0') as int
    else if 'A' <= c <= 'Z' then 10 + (c - 'A') as int
    else if 'a' <= c <= 'z' then 36 + (c - 'a') as int
    else -1
  }

  ghost predicate AllBase62(s: string) {
    forall i | 0 <= i < |s| :: DigitValue(s[i]) >= 0
  }

  /** What a base-62 text is worth, the last digit least. */
  ghost function Worth(s: string): int {
    if s == "" then 0 else Worth(s[..|s| - 1]) * 62 + DigitValue(s[|s| - 1])
  }

  /** What some bytes are worth, the last byte least. */
  ghost function BytesWorth(bs: seq<byte>): int {
    if bs == [] then 0 else BytesWorth(bs[..|bs| - 1]) * 256 + bs[|bs| - 1]
  }

  lemma {:induction false} CharsWorth(ds: seq<nat>)
    requires DigitsOf(62, ds)
    ensures AllBase62(Chars(ds)) && Worth(Chars(ds)) == Value(62, ds)
  {
    if ds != [] {
      var init, d := ds[..|ds| - 1], ds[|ds| - 1];
      CharsWorth(init);
      CharAt(d);
      assert Chars(ds)[..|ds| - 1] == Chars(init);
      forall i | 0 <= i < |ds| ensures DigitValue(Chars(ds)[i]) >= 0 {
        CharAt(ds[i]);
      }
    }
  }

  lemma {:induction false} NaturalsWorth(bs: seq<byte>)
    ensures Value(256, Naturals(bs)) == BytesWorth(bs)
  {
    if bs != [] {
      NaturalsWorth(bs[..|bs| - 1]);
      assert Naturals(bs)[..|bs| - 1] == Naturals(bs[..|bs| - 1]);
    }
  }

  /** The id, read back: the prefix; the first six bytes of the hash, two digits each; and in fourteen digits
      of base 62 the number that the next ten bytes make. */
  lemma SessionIdLaw(hash: seq<byte>, i: nat)
    requires |hash| >= 16 && i < 6
    ensures var id := SessionIdOf(hash);
      && |id| == 30 && id[..4] == "ses_"
      && NibbleOf(id[4 + 2 * i]) >= 0 && NibbleOf(id[5 + 2 * i]) >= 0
      && hash[i] == NibbleOf(id[4 + 2 * i]) * 16 + NibbleOf(id[5 + 2 * i])
      && AllBase62(id[16..]) && Worth(id[16..]) == BytesWorth(hash[6..16])
  {
    var id, hex, slot := SessionIdOf(hash), Hex(hash[..6]), Base62Slot(hash);
    assert id == PREFIX + (hex + slot);
    assert id[4..16] == hex && id[16..] == slot;
    HexLaw(hash[..6], i);
    assert id[4 + 2 * i] == hex[2 * i] && id[5 + 2 * i] == hex[2 * i + 1];
    var n := Value(256, Naturals(hash[6..16]));
    PaddedRoundTrip(n, 14);
    CharsWorth(Padded(n, 14));
    NaturalsWorth(hash[6..16]);
  }
}
