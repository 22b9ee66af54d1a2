/**
  The Bech32 checksum of internal/bitcoin/bech32.go. The checksum state is a 30-bit word and
  absorbing one symbol is a linear map over GF(2); the facts below are consequences of that
  linearity and of the map's injectivity.
 */
module Bech32Checksum {
  import opened Common

  // A five-bit symbol.
  type symbol = x: int | 0 <= x < 32

  type word = bv32

  function Generator(i: nat): word {
    if i == 0 then 0x3b6a57b2 else if i == 1 then 0x26508e6d else if i == 2 then 0x1ea119fa
    else if i == 3 then 0x3d4233dd else 0x2a1462b3
  }

  function Word(v: symbol): word {
    (v as bv5) as word
  }

  // Exclusive or under a name, so that proofs can use its algebra without expanding bits.
  function Xor(a: word, b: word): word {
    a ^ b
  }

  predicate Bit(b: word, i: nat)
    requires i < 5
  {
    (b >> i) & 1 == 1
  }

  function Tap(on: bool, g: word): word {
    if on then g else 0
  }

  // The first n of the five conditional generator additions.
  function Taps(x: word, b: word, n: nat): word
    requires n <= 5
  {
    if n == 0 then x else Xor(Taps(x, b, n - 1), Tap(Bit(b, n - 1), Generator(n - 1)))
  }

  function Shift(chk: word): word {
    (chk & 0x1ffffff) << 5
  }

  // A state and a symbol side by side.
  function Append(a: word, v: word): word {
    Xor(a << 5, v)
  }

  // The state after absorbing one symbol.
  function Step(chk: word, v: word): word {
    Taps(Xor(Shift(chk), v), chk >> 25, 5)
  }

  // The state after absorbing a sequence of symbols.
  function Run(chk: word, vs: seq<symbol>): word
    decreases vs
  {
    if vs == [] then chk else Run(Step(chk, Word(vs[0])), vs[1..])
  }

  function Zeros(n: nat): (zs: seq<symbol>)
    ensures |zs| == n && forall i :: 0 <= i < n ==> zs[i] == 0
  {
    Repeat(0, n)
  }

  function Polymod(vs: seq<symbol>): word {
    Run(1, vs)
  }

  // The six symbols of a 30-bit word, most significant first.
  function Digit(m: word): symbol {
    DigitRange(m & 31);
    ((m & 31) as bv5) as int
  }

  function Down(m: word): word {
    m >> 5
  }

  // m shifted right by 5 * k bits.
  function High(m: word, k: nat): word {
    if k == 0 then m else Down(High(m, k - 1))
  }

  function SixDigits(m: word): seq<symbol> {
    [Digit(High(m, 5)), Digit(High(m, 4)), Digit(High(m, 3)), Digit(High(m, 2)), Digit(High(m, 1)), Digit(High(m, 0))]
  }

  // The six checksum symbols bech32Encode appends to a prefix.
  function Checksum(pre: seq<symbol>): seq<symbol> {
    SixDigits(Xor(Polymod(pre + Zeros(6)), 1))
  }

  // bech32Polymod: the nested loops compute the fold of Step.
  method ComputePolymod(values: seq<symbol>) returns (chk: word)
    ensures chk == Polymod(values)
  {
    hide Xor, Bit, Shift, Word, Generator;
    chk := 1;
    for k := 0 to |values|
      invariant Run(chk, values[k..]) == Polymod(values)
    {
      var b := chk >> 25;
      chk := Xor(Shift(chk), Word(values[k]));
      ghost var start := chk;
      for i := 0 to 5
        invariant chk == Taps(start, b, i)
      {
        if Bit(b, i) {
          chk := Xor(chk, Generator(i));
        } else {
          XorZero(chk);
        }
      }
      assert values[k..][1..] == values[k + 1..];
    }
  }

  // The checksum loop of bech32Encode.
  method ComputeChecksum(pre: seq<symbol>) returns (checksum: seq<symbol>)
    ensures checksum == Checksum(pre)
  {
    hide Run, Digit, Xor, Down;
    var mod := ComputePolymod(pre + Zeros(6));
    mod := Xor(mod, 1);
    checksum := Zeros(6);
    for i := 0 to 6
      invariant |checksum| == 6
      invariant forall k :: 0 <= k < i ==> checksum[k] == Digit(High(mod, 5 - k))
    {
      checksum := checksum[i := Digit(High(mod, 5 - i))];
    }
    assert checksum == SixDigits(mod);
  }

  // ---- algebra of exclusive or ----

  lemma DigitRange(m: word)
    requires m < 32
    ensures (m as bv5) as word == m
  {
  }

  lemma XorZero(a: word)
    ensures Xor(a, 0) == a && Xor(0, a) == a && Xor(a, a) == 0
  {
  }

  lemma XorCommutes(a: word, b: word)
    ensures Xor(a, b) == Xor(b, a)
  {
  }

  lemma XorAssociates(a: word, b: word, c: word)
    ensures Xor(Xor(a, b), c) == Xor(a, Xor(b, c))
  {
  }

  lemma XorSwap(a: word, b: word, c: word, d: word)
    ensures Xor(Xor(a, b), Xor(c, d)) == Xor(Xor(a, c), Xor(b, d))
  {
    hide *;
    XorAssociates(a, b, Xor(c, d));
    XorAssociates(b, c, d);
    XorCommutes(b, c);
    XorAssociates(c, b, d);
    XorAssociates(a, c, Xor(b, d));
  }

  lemma XorCancels(a: word, b: word)
    ensures Xor(a, Xor(a, b)) == b
    ensures Xor(a, b) == 0 ==> a == b
  {
    hide *;
    XorAssociates(a, a, b);
    XorZero(a);
    XorZero(b);
    if Xor(a, b) == 0 {
      assert Xor(a, Xor(a, b)) == Xor(a, 0);
    }
  }

  // ---- one step is linear and injective ----

  lemma TapXor(p: bool, q: bool, g: word)
    ensures Tap(p != q, g) == Xor(Tap(p, g), Tap(q, g))
  {
    XorZero(g);
    XorZero(0);
    if p {
      if q {
      } else {
      }
    } else if q {
    } else {
    }
  }

  lemma BitsXor(x: word, y: word)
    ensures Bit(Xor(x, y), 0) == (Bit(x, 0) != Bit(y, 0))
    ensures Bit(Xor(x, y), 1) == (Bit(x, 1) != Bit(y, 1))
    ensures Bit(Xor(x, y), 2) == (Bit(x, 2) != Bit(y, 2))
    ensures Bit(Xor(x, y), 3) == (Bit(x, 3) != Bit(y, 3))
    ensures Bit(Xor(x, y), 4) == (Bit(x, 4) != Bit(y, 4))
  {
  }

  lemma {:induction false} TapsLinear(x: word, y: word, b: word, c: word, n: nat)
    requires n <= 5
    ensures Taps(Xor(x, y), Xor(b, c), n) == Xor(Taps(x, b, n), Taps(y, c, n))
  {
    hide Xor, Tap, Bit, Generator;
    if n > 0 {
      TapsLinear(x, y, b, c, n - 1);
      BitsXor(b, c);
      TapXor(Bit(b, n - 1), Bit(c, n - 1), Generator(n - 1));
      XorSwap(Taps(x, b, n - 1), Taps(y, c, n - 1),
              Tap(Bit(b, n - 1), Generator(n - 1)), Tap(Bit(c, n - 1), Generator(n - 1)));
    }
  }

  lemma ShiftXor(a: word, b: word)
    ensures Shift(Xor(a, b)) == Xor(Shift(a), Shift(b))
    ensures Xor(a, b) >> 25 == Xor(a >> 25, b >> 25)
  {
  }

  lemma StepLinear(a: word, b: word, v: word, w: word)
    ensures Step(Xor(a, b), Xor(v, w)) == Xor(Step(a, v), Step(b, w))
  {
    hide Xor, Shift, Taps;
    ShiftXor(a, b);
    XorSwap(Shift(a), Shift(b), v, w);
    TapsLinear(Xor(Shift(a), v), Xor(Shift(b), w), a >> 25, b >> 25, 5);
  }

  // Step with the loop unrolled.
  function FlatStep(a: word, v: word): word {
    var b := a >> 25;
    Xor(Xor(Xor(Xor(Xor(Xor(Shift(a), v), Tap(Bit(b, 0), Generator(0))), Tap(Bit(b, 1), Generator(1))),
      Tap(Bit(b, 2), Generator(2))), Tap(Bit(b, 3), Generator(3))), Tap(Bit(b, 4), Generator(4)))
  }

  lemma StepIsFlat(a: word, v: word)
    ensures Step(a, v) == FlatStep(a, v)
  {
    hide Xor, Tap, Bit, Shift, Generator;
    var x, b := Xor(Shift(a), v), a >> 25;
    assert Taps(x, b, 1) == Xor(x, Tap(Bit(b, 0), Generator(0)));
    assert Taps(x, b, 2) == Xor(Taps(x, b, 1), Tap(Bit(b, 1), Generator(1)));
    assert Taps(x, b, 3) == Xor(Taps(x, b, 2), Tap(Bit(b, 2), Generator(2)));
    assert Taps(x, b, 4) == Xor(Taps(x, b, 3), Tap(Bit(b, 3), Generator(3)));
  }

  // The low five bits of the generators are independent, so only the zero state maps to zero.
  lemma FlatStepKernel(a: word)
    requires a < 0x4000_0000 && FlatStep(a, 0) == 0
    ensures a == 0
  {
  }

  lemma FlatStepRange(a: word, v: word)
    requires a < 0x4000_0000 && v < 32
    ensures FlatStep(a, v) < 0x4000_0000
  {
  }

  // Below 2^25 nothing is fed back: the symbol is appended in base 32.
  lemma StepSmall(a: word, v: word)
    requires a < 0x200_0000
    ensures Step(a, v) == Append(a, v)
  {
    SmallShift(a);
    hide Xor, Shift, Bit, Generator;
    StepIsFlat(a, v);
    XorZero(Xor(Shift(a), v));
  }

  lemma SmallShift(a: word)
    requires a < 0x200_0000
    ensures a >> 25 == 0 && Shift(a) == a << 5
    ensures !Bit(0, 0) && !Bit(0, 1) && !Bit(0, 2) && !Bit(0, 3) && !Bit(0, 4)
  {
  }

  lemma StepInjective(a: word, b: word, v: word)
    requires a < 0x4000_0000 && b < 0x4000_0000 && Step(a, v) == Step(b, v)
    ensures a == b
  {
    hide *;
    StepLinear(a, b, v, v);
    XorZero(v);
    XorZero(Step(a, v));
    XorRange(a, b);
    StepIsFlat(Xor(a, b), 0);
    FlatStepKernel(Xor(a, b));
    XorCancels(a, b);
  }

  lemma XorRange(a: word, b: word)
    requires a < 0x4000_0000 && b < 0x4000_0000
    ensures Xor(a, b) < 0x4000_0000
  {
  }

  // ---- runs ----

  lemma Widen(p: bv5, q: bv5)
    ensures p as word < 32 && (p as word == q as word ==> p == q)
  {
  }

  lemma NarrowInjective(v: symbol, w: symbol)
    requires v as bv5 == w as bv5
    ensures v == w
  {
    assert (v as bv5) as int == v;
    assert (w as bv5) as int == w;
  }

  lemma WordFacts(v: symbol, w: symbol)
    ensures Word(v) < 32 && Word(0) == 0
    ensures Word(v) == Word(w) ==> v == w
  {
    Widen(v as bv5, w as bv5);
    if v as bv5 == w as bv5 {
      NarrowInjective(v, w);
    }
  }

  lemma {:induction false} RunConcat(c: word, xs: seq<symbol>, ys: seq<symbol>)
    ensures Run(c, xs + ys) == Run(Run(c, xs), ys)
    decreases xs
  {
    hide Step, Word;
    if xs == [] {
      assert xs + ys == ys;
    } else {
      assert (xs + ys)[1..] == xs[1..] + ys;
      RunConcat(Step(c, Word(xs[0])), xs[1..], ys);
    }
  }

  lemma {:induction false} RunRange(c: word, vs: seq<symbol>)
    requires c < 0x4000_0000
    ensures Run(c, vs) < 0x4000_0000
    decreases vs
  {
    hide Step, Word, FlatStep;
    if vs != [] {
      WordFacts(vs[0], vs[0]);
      FlatStepRange(c, Word(vs[0]));
      StepIsFlat(c, Word(vs[0]));
      RunRange(Step(c, Word(vs[0])), vs[1..]);
    }
  }

  // Distinct states never merge, whatever is absorbed afterwards.
  lemma {:induction false} RunInjective(a: word, b: word, vs: seq<symbol>)
    requires a < 0x4000_0000 && b < 0x4000_0000 && Run(a, vs) == Run(b, vs)
    ensures a == b
    decreases vs
  {
    hide Step, Word, FlatStep;
    if vs != [] {
      var v := Word(vs[0]);
      WordFacts(vs[0], vs[0]);
      FlatStepRange(a, v);
      FlatStepRange(b, v);
      StepIsFlat(a, v);
      StepIsFlat(b, v);
      RunInjective(Step(a, v), Step(b, v), vs[1..]);
      StepInjective(a, b, v);
    }
  }

  // Absorbing symbols is adding their contribution to that of the state alone.
  lemma {:induction false} RunSplit(a: word, t: word, xs: seq<symbol>)
    ensures Run(Xor(a, t), xs) == Xor(Run(a, Zeros(|xs|)), Run(t, xs))
    decreases xs
  {
    hide Step, Word, Xor;
    if xs == [] {
      assert Zeros(0) == [];
    } else {
      var v := Word(xs[0]);
      WordFacts(xs[0], xs[0]);
      XorZero(v);
      StepLinear(a, t, 0, v);
      assert Zeros(|xs|)[1..] == Zeros(|xs[1..]|);
      RunSplit(Step(a, 0), Step(t, v), xs[1..]);
    }
  }

  // 32^k, as a word.
  function Cap(k: nat): word
    requires k <= 6
  {
    if k == 0 then 1 else if k == 1 then 0x20 else if k == 2 then 0x400 else if k == 3 then 0x8000
    else if k == 4 then 0x10_0000 else if k == 5 then 0x200_0000 else 0x4000_0000
  }

  predicate Below(a: word, k: nat)
    requires k <= 6
  {
    a < Cap(k)
  }

  lemma AppendRange(a: word, v: symbol, k: nat)
    requires k < 6 && Below(a, k)
    ensures Step(a, Word(v)) == Append(a, Word(v)) && Below(Append(a, Word(v)), k + 1) && Below(a, 5)
  {
    hide Append, Step, Word, Cap, Below;
    WordFacts(v, v);
    CapAppend(a, Word(v), k);
    StepSmall(a, Word(v));
  }

  lemma CapAppend(a: word, v: word, k: nat)
    requires k < 6 && Below(a, k) && v < 32
    ensures a < 0x200_0000 && Below(a, 5) && Below(Append(a, v), k + 1)
  {
    if k == 0 {
    } else if k == 1 {
    } else if k == 2 {
    } else if k == 3 {
    } else if k == 4 {
    } else {
    }
  }

  lemma AppendInjective(a: word, b: word, v: symbol, w: symbol)
    requires Below(a, 5) && Below(b, 5) && Append(a, Word(v)) == Append(b, Word(w))
    ensures a == b && v == w
  {
    WordFacts(v, w);
    WordFacts(w, v);
    hide Word;
    AppendWordInjective(a, b, Word(v), Word(w));
  }

  lemma AppendWordInjective(a: word, b: word, v: word, w: word)
    requires a < 0x200_0000 && b < 0x200_0000 && v < 32 && w < 32
    requires Append(a, v) == Append(b, w)
    ensures a == b && v == w
  {
  }

  // Up to six symbols absorbed into an almost empty state can be read back.
  lemma {:induction false} PackInjective(t: word, u: word, xs: seq<symbol>, ys: seq<symbol>, k: nat)
    requires |xs| == |ys| && k + |xs| <= 6 && Below(t, k) && Below(u, k)
    requires Run(t, xs) == Run(u, ys)
    ensures t == u && xs == ys
    decreases xs
  {
    hide Step, Word, Append, Below;
    if xs != [] {
      var v, w := Word(xs[0]), Word(ys[0]);
      AppendRange(t, xs[0], k);
      AppendRange(u, ys[0], k);
      PackInjective(Step(t, v), Step(u, w), xs[1..], ys[1..], k + 1);
      AppendInjective(t, u, xs[0], ys[0]);
      assert xs == [xs[0]] + xs[1..] && ys == [ys[0]] + ys[1..];
    }
  }

  // Any state tells two windows of at most six symbols apart.
  lemma WindowSeparates(c: word, xs: seq<symbol>, ys: seq<symbol>)
    requires |xs| == |ys| <= 6 && Run(c, xs) == Run(c, ys)
    ensures xs == ys
  {
    hide Xor;
    XorZero(c);
    RunSplit(c, 0, xs);
    RunSplit(c, 0, ys);
    XorCancels(Run(c, Zeros(|xs|)), Run(0, xs));
    XorCancels(Run(c, Zeros(|xs|)), Run(0, ys));
    PackInjective(0, 0, xs, ys, 0);
  }

  // Burst detection: sequences that differ only inside a window of at most six symbols
  // have different checksums, so at most one of them is valid.
  lemma BurstDetected(pre: seq<symbol>, xs: seq<symbol>, ys: seq<symbol>, post: seq<symbol>)
    requires |xs| == |ys| <= 6 && xs != ys
    ensures Polymod(pre + xs + post) != Polymod(pre + ys + post)
  {
    hide Run;
    RunConcat(1, pre + xs, post);
    RunConcat(1, pre + ys, post);
    RunConcat(1, pre, xs);
    RunConcat(1, pre, ys);
    RunRange(1, pre + xs);
    RunRange(1, pre + ys);
    if Polymod(pre + xs + post) == Polymod(pre + ys + post) {
      RunInjective(Run(1, pre + xs), Run(1, pre + ys), post);
      WindowSeparates(Run(1, pre), xs, ys);
    }
  }

  // ---- the checksum symbols ----

  lemma DigitAppend(m: word)
    ensures Append(Down(m), Word(Digit(m))) == m
  {
    var d := m & 31;
    DigitRange(d);
    assert ((d as bv5) as int) as bv5 == d as bv5;
  }

  lemma DownBelow(m: word, k: nat)
    requires k < 6 && Below(m, k + 1)
    ensures Below(Down(m), k)
  {
    if k == 0 {
    } else if k == 1 {
    } else if k == 2 {
    } else if k == 3 {
    } else if k == 4 {
    } else {
    }
  }

  lemma {:induction false} HighBelow(m: word, k: nat)
    requires k <= 6 && Below(m, 6)
    ensures Below(High(m, k), 6 - k)
  {
    hide Below, Down;
    if k > 0 {
      HighBelow(m, k - 1);
      DownBelow(High(m, k - 1), 6 - k);
    }
  }

  lemma BelowSmall(m: word, k: nat)
    requires k <= 5 && Below(m, k)
    ensures m < 0x200_0000 && (k == 0 ==> m == 0)
  {
  }

  lemma Absorb(m: word, k: nat)
    requires k < 6 && Below(m, 6)
    ensures Step(High(m, k + 1), Word(Digit(High(m, k)))) == High(m, k)
  {
    hide Step, Word, Append, Digit, Below, Down;
    HighBelow(m, k + 1);
    BelowSmall(High(m, k + 1), 5 - k);
    StepSmall(High(m, k + 1), Word(Digit(High(m, k))));
    DigitAppend(High(m, k));
  }

  lemma DigitsPack(m: word)
    requires Below(m, 6)
    ensures Run(0, SixDigits(m)) == m
  {
    hide Step, Word, Digit, Run, Below, Down;
    HighBelow(m, 6);
    BelowSmall(High(m, 6), 0);
    Absorb(m, 5);
    Absorb(m, 4);
    Absorb(m, 3);
    Absorb(m, 2);
    Absorb(m, 1);
    Absorb(m, 0);
    RunSix(0, Digit(High(m, 5)), Digit(High(m, 4)), Digit(High(m, 3)), Digit(High(m, 2)), Digit(High(m, 1)),
           Digit(High(m, 0)));
  }

  lemma RunSix(c: word, a: symbol, b: symbol, d: symbol, e: symbol, f: symbol, g: symbol)
    ensures Run(c, [a, b, d, e, f, g]) ==
            Step(Step(Step(Step(Step(Step(c, Word(a)), Word(b)), Word(d)), Word(e)), Word(f)), Word(g))
  {
    hide Step, Word;
    var c3 := Step(Step(Step(c, Word(a)), Word(b)), Word(d));
    assert [a, b, d, e, f, g] == [a, b, d] + [e, f, g];
    RunConcat(c, [a, b, d], [e, f, g]);
    RunThree(c, a, b, d);
    RunThree(c3, e, f, g);
  }

  lemma RunThree(c: word, a: symbol, b: symbol, d: symbol)
    ensures Run(c, [a, b, d]) == Step(Step(Step(c, Word(a)), Word(b)), Word(d))
  {
    hide Step, Word;
    assert [a, b, d][1..] == [b, d] && [b, d][1..] == [d] && [d][1..] == [];
    assert Run(Step(c, Word(a)), [b, d]) == Run(Step(Step(c, Word(a)), Word(b)), [d]);
  }

  // The checksum is the only six-symbol suffix that makes the whole sequence valid.
  lemma ChecksumUnique(pre: seq<symbol>, cs: seq<symbol>)
    requires |cs| == 6
    ensures Polymod(pre + cs) == 1 <==> cs == Checksum(pre)
  {
    hide Run, SixDigits, Xor, Digit;
    var s := Run(1, pre);
    var r := Run(s, Zeros(6));
    RunConcat(1, pre, Zeros(6));
    RunConcat(1, pre, cs);
    RunConcat(1, pre, Checksum(pre));
    RunRange(1, pre);
    RunRange(s, Zeros(6));
    XorRange(r, 1);
    DigitsPack(Xor(r, 1));
    XorZero(s);
    DigitsLength(Xor(r, 1));
    RunSplit(s, 0, Checksum(pre));
    XorCancels(r, 1);
    if Polymod(pre + cs) == 1 {
      WindowSeparates(s, cs, Checksum(pre));
    }
  }

  lemma DigitsLength(m: word)
    ensures |SixDigits(m)| == 6
  {
  }

  // ---- a known checksum ----

  lemma KnownStep(a: word, v: word, b: word)
    requires FlatStep(a, v) == b
    ensures Step(a, v) == b
  {
    hide FlatStep, Step;
    StepIsFlat(a, v);
  }

  lemma KnownStart()
    ensures Step(1, 3) == 0x23 && Step(0x23, 0) == 0x460 && Step(0x460, 1) == 0x8c01
    ensures Step(0x8c01, 10) == 0x11802a && Step(0x11802a, 28) == 0x230055c
  {
    hide Step;
    StepSmall(1, 3);
    StepSmall(0x23, 0);
    StepSmall(0x460, 1);
    StepSmall(0x8c01, 10);
    StepSmall(0x11802a, 28);
  }

  lemma KnownMiddle()
    ensures FlatStep(0x230055c, 25) == 0x3d6afc2b && FlatStep(0x3d6afc2b, 31) == 0x2f84386
  {
  }

  lemma KnownEnd()
    ensures FlatStep(0x2f84386, 20) == 0x24622766 && FlatStep(0x24622766, 31) == 1
  {
  }

  // The first test vector of BIP 173, a12uel5l: it goes through all five generators.
  lemma KnownChecksum()
    ensures Polymod([3, 0, 1, 10, 28, 25, 31, 20, 31]) == 1
  {
    hide FlatStep, Step, Word;
    KnownStart();
    KnownMiddle();
    KnownEnd();
    KnownWords();
    KnownStep(0x230055c, 25, 0x3d6afc2b);
    KnownStep(0x3d6afc2b, 31, 0x2f84386);
    KnownStep(0x2f84386, 20, 0x24622766);
    KnownStep(0x24622766, 31, 1);
    RunThree(1, 3, 0, 1);
    RunSix(0x8c01, 10, 28, 25, 31, 20, 31);
    RunConcat(1, [3, 0, 1], [10, 28, 25, 31, 20, 31]);
    assert [3, 0, 1] + [10, 28, 25, 31, 20, 31] == [3, 0, 1, 10, 28, 25, 31, 20, 31];
  }

  lemma KnownWords()
    ensures Word(3) == 3 && Word(0) == 0 && Word(1) == 1 && Word(10) == 10 && Word(28) == 28
    ensures Word(25) == 25 && Word(31) == 31 && Word(20) == 20
  {
  }
}
