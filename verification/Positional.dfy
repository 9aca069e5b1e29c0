/** Positional numerals, most significant digit first. */
module Positional {
  function Pow(b: nat, k: nat): nat {
    if k == 0 then 1 else Pow(b, k - 1) * b
  }

  ghost predicate DigitsOf(b: nat, ds: seq<nat>) {
    forall i | 0 <= i < |ds| :: ds[i] < b
  }

  function Value(b: nat, ds: seq<nat>): nat {
    if ds == [] then 0 else Value(b, ds[..|ds| - 1]) * b + ds[|ds| - 1]
  }

  lemma {:induction false} Scaled(x: nat, y: nat, b: nat)
    requires x < y
    ensures x * b + b <= y * b
    decreases y - x
  {
    if y == x + 1 {
      assert y * b == x * b + b;
    } else {
      Scaled(x, y - 1, b);
      assert y * b == (y - 1) * b + b;
    }
  }

  lemma Split(x: nat, y: nat, d: nat, e: nat, b: nat)
    requires d < b && e < b && x * b + d == y * b + e
    ensures x == y && d == e
  {
    if x < y {
      Scaled(x, y, b);
    } else if y < x {
      Scaled(y, x, b);
    }
  }

  lemma ValueAppend(b: nat, ds: seq<nat>, d: nat)
    ensures Value(b, ds + [d]) == Value(b, ds) * b + d
  {
    assert (ds + [d])[..|ds|] == ds;
  }

  lemma {:induction false} ValueBound(b: nat, ds: seq<nat>)
    requires DigitsOf(b, ds)
    ensures Value(b, ds) < Pow(b, |ds|)
  {
    if ds != [] {
      ValueBound(b, ds[..|ds| - 1]);
      Scaled(Value(b, ds[..|ds| - 1]), Pow(b, |ds| - 1), b);
    }
  }

  /** Of numerals of one length, each number has one. */
  lemma {:induction false} ValueInjective(b: nat, ds: seq<nat>, es: seq<nat>)
    requires DigitsOf(b, ds) && DigitsOf(b, es) && |ds| == |es| && Value(b, ds) == Value(b, es)
    ensures ds == es
  {
    if ds != [] {
      var x, y := ds[..|ds| - 1], es[..|es| - 1];
      Split(Value(b, x), Value(b, y), ds[|ds| - 1], es[|es| - 1], b);
      ValueInjective(b, x, y);
      assert ds == x + [ds[|ds| - 1]] && es == y + [es[|es| - 1]];
    }
  }

  /** The numeral without leading zeros; none for zero. */
  function Numeral(b: nat, n: nat): (ds: seq<nat>)
    requires b >= 2
    decreases n
  {
    if n == 0 then [] else Numeral(b, n / b) + [n % b]
  }

  lemma DivMod(n: nat, b: nat)
    requires b >= 2 && n > 0
    ensures n == n / b * b + n % b && n % b < b && n / b < n
  {
  }

  lemma {:induction false} NumeralFacts(b: nat, n: nat)
    requires b >= 2
    ensures DigitsOf(b, Numeral(b, n)) && Value(b, Numeral(b, n)) == n
    decreases n
  {
    if n > 0 {
      DivMod(n, b);
      var q, d := n / b, n % b;
      NumeralFacts(b, q);
      ValueAppend(b, Numeral(b, q), d);
    }
  }

  lemma {:induction false} NumeralFits(b: nat, n: nat, k: nat)
    requires b >= 2 && n < Pow(b, k)
    ensures |Numeral(b, n)| <= k
    decreases k
  {
    if n > 0 {
      if k > 0 {
        if n / b >= Pow(b, k - 1) {
          assert n / b * b >= Pow(b, k - 1) * b by {
            if n / b > Pow(b, k - 1) { Scaled(Pow(b, k - 1), n / b, b); }
          }
        }
        NumeralFits(b, n / b, k - 1);
      }
    }
  }

  function Zeros(k: nat): seq<nat> {
    seq(k, _ => 0)
  }

  lemma {:induction false} ZerosLead(b: nat, k: nat, ds: seq<nat>)
    ensures Value(b, Zeros(k) + ds) == Value(b, ds)
  {
    if ds != [] {
      assert (Zeros(k) + ds)[..k + |ds| - 1] == Zeros(k) + ds[..|ds| - 1];
      ZerosLead(b, k, ds[..|ds| - 1]);
    } else {
      assert Zeros(k) + ds == Zeros(k);
      ZerosAreZero(b, k);
    }
  }

  lemma {:induction false} ZerosAreZero(b: nat, k: nat)
    ensures Value(b, Zeros(k)) == 0
  {
    if k > 0 {
      assert Zeros(k)[..k - 1] == Zeros(k - 1);
      ZerosAreZero(b, k - 1);
    }
  }
}
