/**
  Positional numbers, most significant digit first. Base 2 serves the bit regrouping of Bech32,
  base 58 and base 256 serve Base58, and fixed-width base 256 serves integers on the wire.
 */
module Radix {
  import opened Common

  predicate IsDigits(ds: seq<int>, b: nat) {
    forall i :: 0 <= i < |ds| ==> 0 <= ds[i] < b
  }

  function Value(ds: seq<int>, b: nat): int {
    if ds == [] then 0 else Value(ds[..|ds| - 1], b) * b + ds[|ds| - 1]
  }

  // The shortest representation of n; empty for zero.
  function Digits(n: nat, b: nat): seq<int>
    requires b >= 2
  {
    if n == 0 then [] else DivShrinks(n, b); Digits(n / b, b) + [n % b]
  }

  // The last k digits of n.
  function Fixed(n: nat, b: nat, k: nat): (ds: seq<int>)
    requires b >= 2
    ensures |ds| == k && IsDigits(ds, b)
    decreases k
  {
    if k == 0 then [] else DivShrinks(n, b); Fixed(n / b, b, k - 1) + [n % b]
  }

  function LeadingZeros(ds: seq<int>): (k: nat)
    ensures k <= |ds| && (k < |ds| ==> ds[k] != 0)
    ensures forall i :: 0 <= i < k ==> ds[i] == 0
  {
    if ds == [] || ds[0] != 0 then 0 else 1 + LeadingZeros(ds[1..])
  }

  lemma DivShrinks(n: nat, b: nat)
    requires b >= 2
    ensures 0 <= n / b && n / b * b + n % b == n && 0 <= n % b < b
    ensures n > 0 ==> n / b < n
  {
    var q := n / b;
    assert q * b + n % b == n;
    assert q >= 0 ==> q * b >= 2 * q;
  }

  lemma DigitStep(x: int, p: nat, b: nat, d: int)
    requires 0 <= x < p && 0 <= d < b
    ensures 0 <= x * b + d < b * p
  {
    assert x * b <= (p - 1) * b;
  }

  lemma Shifted(x: int, p: int, y: int, b: int, d: int)
    ensures (x * p + y) * b + d == x * (b * p) + (y * b + d)
  {
  }

  lemma {:induction false} ValueRange(ds: seq<int>, b: nat)
    requires IsDigits(ds, b)
    ensures 0 <= Value(ds, b) < Pow(b, |ds|)
  {
    if ds != [] {
      var n := |ds| - 1;
      ValueRange(ds[..n], b);
      DigitStep(Value(ds[..n], b), Pow(b, n), b, ds[n]);
    }
  }

  lemma {:induction false} ValueConcat(xs: seq<int>, ys: seq<int>, b: nat)
    ensures Value(xs + ys, b) == Value(xs, b) * Pow(b, |ys|) + Value(ys, b)
  {
    if ys == [] {
      assert xs + ys == xs;
    } else {
      var n := |ys| - 1;
      assert (xs + ys)[..|xs| + n] == xs + ys[..n];
      ValueConcat(xs, ys[..n], b);
      Shifted(Value(xs, b), Pow(b, n), Value(ys[..n], b), b, ys[n]);
    }
  }

  lemma {:induction false} ValueZeros(k: nat, b: nat)
    ensures Value(Repeat(0, k), b) == 0
  {
    if k > 0 {
      assert Repeat(0, k)[..k - 1] == Repeat(0, k - 1);
      ValueZeros(k - 1, b);
    }
  }

  lemma {:induction false} DigitsValue(n: nat, b: nat)
    requires b >= 2
    ensures IsDigits(Digits(n, b), b) && Value(Digits(n, b), b) == n
    ensures n > 0 ==> Digits(n, b) != [] && Digits(n, b)[0] != 0
  {
    if n > 0 {
      DivShrinks(n, b);
      DigitsValue(n / b, b);
      ValueSnoc(Digits(n / b, b), n % b, b);
      SnocHead(n / b, n % b, b);
    }
  }

  lemma ValueSnoc(ds: seq<int>, d: int, b: nat)
    ensures Value(ds + [d], b) == Value(ds, b) * b + d
  {
    assert (ds + [d])[..|ds|] == ds;
  }

  lemma SnocHead(q: nat, r: nat, b: nat)
    requires b >= 2 && (q == 0 ==> r != 0)
    requires q > 0 ==> Digits(q, b) != [] && Digits(q, b)[0] != 0
    ensures (Digits(q, b) + [r])[0] != 0
  {
  }

  // A representation without leading zeros is the shortest one.
  lemma {:induction false} DigitsUnique(ds: seq<int>, b: nat)
    requires b >= 2 && IsDigits(ds, b) && (ds == [] || ds[0] != 0)
    ensures Value(ds, b) >= 0 && Digits(Value(ds, b), b) == ds
  {
    if ds != [] {
      var init, last := ds[..|ds| - 1], ds[|ds| - 1];
      ValueRange(ds, b);
      ValueRange(init, b);
      QuotientRemainder(Value(init, b), b, last);
      DigitsUnique(init, b);
      if init != [] {
        assert Value(init, b) > 0;
      }
      assert ds == init + [last];
    }
  }

  // Every digit sequence is its leading zeros followed by the digits of its value.
  lemma DigitsOfValue(ds: seq<int>, b: nat)
    requires b >= 2 && IsDigits(ds, b)
    ensures Value(ds, b) >= 0
    ensures ds == Repeat(0, LeadingZeros(ds)) + Digits(Value(ds, b), b)
  {
    var k := LeadingZeros(ds);
    assert ds[..k] == Repeat(0, k);
    assert ds == Repeat(0, k) + ds[k..];
    ValueConcat(Repeat(0, k), ds[k..], b);
    ValueZeros(k, b);
    DigitsUnique(ds[k..], b);
  }

  lemma {:induction false} LeadingZerosOf(k: nat, ds: seq<int>)
    requires ds == [] || ds[0] != 0
    ensures LeadingZeros(Repeat(0, k) + ds) == k
  {
    var s := Repeat(0, k) + ds;
    if k > 0 {
      assert s[1..] == Repeat(0, k - 1) + ds;
      LeadingZerosOf(k - 1, ds);
    } else {
      assert s == ds;
    }
  }

  // The bytes of n without leading zeros, as big.Int.Bytes returns them.
  function Minimal(n: nat): seq<byte> {
    DigitsValue(n, 256);
    Digits(n, 256)
  }

  // ---- fixed width ----

  lemma {:induction false} FixedValue(n: nat, b: nat, k: nat)
    requires b >= 2 && n < Pow(b, k)
    ensures Value(Fixed(n, b, k), b) == n
    decreases k
  {
    if k > 0 {
      DivShrinks(n, b);
      QuotientBelow(n, b, Pow(b, k - 1));
      FixedValue(n / b, b, k - 1);
      ValueSnoc(Fixed(n / b, b, k - 1), n % b, b);
    }
  }

  lemma QuotientBelow(n: nat, b: nat, p: nat)
    requires b >= 2 && n < b * p
    ensures n / b < p
  {
    DivShrinks(n, b);
    CancelFactor(n / b, p, b);
  }

  lemma CancelFactor(x: int, y: int, b: nat)
    requires x * b < b * y
    ensures x < y
  {
  }

  lemma {:induction false} FixedOfValue(ds: seq<int>, b: nat)
    requires b >= 2 && IsDigits(ds, b)
    ensures Value(ds, b) >= 0 && Fixed(Value(ds, b), b, |ds|) == ds
  {
    ValueRange(ds, b);
    if ds != [] {
      var init, last := ds[..|ds| - 1], ds[|ds| - 1];
      QuotientRemainder(Value(init, b), b, last);
      FixedOfValue(init, b);
      assert ds == init + [last];
    }
  }

  // The last k digits of n are those of q when n = m * b^k + q.
  lemma {:induction false} FixedOfSum(m: nat, q: nat, b: nat, j: nat, k: nat)
    requires b >= 2 && q < Pow(b, k)
    ensures m * Pow(b, k) + q >= 0
    ensures Fixed(m * Pow(b, k) + q, b, j + k) == Fixed(m, b, j) + Fixed(q, b, k)
    decreases k
  {
    if k == 0 {
      assert Fixed(m, b, j) + [] == Fixed(m, b, j);
    } else {
      var p := Pow(b, k - 1);
      var n := m * Pow(b, k) + q;
      DivShrinks(q, b);
      QuotientBelow(q, b, p);
      Shifted(m, p, q / b, b, q % b);
      QuotientRemainder(m * p + q / b, b, q % b);
      FixedOfSum(m, q / b, b, j, k - 1);
      assert Fixed(n, b, j + k) == Fixed(n / b, b, j + k - 1) + [n % b];
    }
  }

  // The last j + k digits of n are those of its quotient by b^k and of its remainder.
  lemma FixedSplit(n: nat, b: nat, j: nat, k: nat)
    requires b >= 2
    ensures Pow(b, k) > 0 && n / Pow(b, k) >= 0
    ensures Fixed(n, b, j + k) == Fixed(n / Pow(b, k), b, j) + Fixed(n, b, k)
  {
    PowPositive(b, k);
    var p := Pow(b, k);
    var m, q := n / p, n % p;
    assert m * p + q == n;
    QuotientNonNegative(n, p);
    FixedOfSum(m, q, b, j, k);
    FixedOfSum(m, q, b, 0, k);
    assert Fixed(m, b, 0) + Fixed(q, b, k) == Fixed(q, b, k);
  }

  lemma QuotientNonNegative(n: nat, p: nat)
    requires p > 0
    ensures n / p >= 0
  {
  }

  // Masking to b^m keeps the last k <= m digits.
  lemma FixedMask(n: nat, b: nat, k: nat, m: nat)
    requires b >= 2 && k <= m
    ensures Pow(b, m) > 0 && n % Pow(b, m) >= 0
    ensures Fixed(n % Pow(b, m), b, k) == Fixed(n, b, k)
  {
    PowPositive(b, m);
    var p := Pow(b, m);
    var q, r := n / p, n % p;
    assert q * p + r == n;
    QuotientNonNegative(n, p);
    TailOfSum(q, r, b, k, m);
  }

  lemma TailOfSum(q: nat, r: nat, b: nat, k: nat, m: nat)
    requires b >= 2 && k <= m && r < Pow(b, m)
    ensures q * Pow(b, m) + r >= 0
    ensures Fixed(r, b, k) == Fixed(q * Pow(b, m) + r, b, k)
  {
    hide Fixed, Pow;
    FixedOfSum(q, r, b, 0, m);
    var n := q * Pow(b, m) + r;
    FixedSplit(n, b, m - k, k);
    FixedSplit(r, b, m - k, k);
    assert Fixed(r, b, m) == Fixed(n, b, m);
    assert Fixed(n, b, m)[m - k..] == Fixed(n, b, k);
    assert Fixed(r, b, m)[m - k..] == Fixed(r, b, k);
  }

  // Padding the shortest representation on the left gives the fixed-width one.
  lemma {:induction false} PaddedDigits(n: nat, b: nat, k: nat)
    requires b >= 2 && n < Pow(b, k)
    ensures |Digits(n, b)| <= k && Fixed(n, b, k) == Repeat(0, k - |Digits(n, b)|) + Digits(n, b)
    decreases k
  {
    if n == 0 {
      DigitsValue(0, b);
      FixedOfZero(b, k);
    } else {
      DivShrinks(n, b);
      QuotientBelow(n, b, Pow(b, k - 1));
      PaddedDigits(n / b, b, k - 1);
    }
  }

  lemma {:induction false} FixedOfZero(b: nat, k: nat)
    requires b >= 2
    ensures Fixed(0, b, k) == Repeat(0, k)
  {
    if k > 0 {
      QuotientRemainder(0, b, 0);
      FixedOfZero(b, k - 1);
      assert Repeat(0, k) == Repeat(0, k - 1) + [0];
    }
  }
}
