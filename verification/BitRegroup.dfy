/**
  convertBits of internal/bitcoin/bech32.go: regrouping a bit stream from one symbol width to
  another. The reference reads the stream as a sequence of bits; the loop keeps only a masked
  accumulator and a bit count.
 */
module BitRegroup {
  import opened Common
  import opened Radix

  datatype RegroupError = OutOfRange | BadPadding

  // The bits of all values, w per value, most significant first.
  function BitString(data: seq<int>, w: nat): (bits: seq<int>)
    requires IsDigits(data, Pow(2, w))
    ensures IsDigits(bits, 2)
  {
    if data == [] then [] else Fixed(data[0], 2, w) + BitString(data[1..], w)
  }

  function Groups(bits: seq<int>, w: nat): (gs: seq<int>)
    requires w > 0 && IsDigits(bits, 2)
    ensures IsDigits(gs, Pow(2, w))
    decreases |bits|
  {
    if |bits| < w then [] else
      ValueRange(bits[..w], 2);
      [Value(bits[..w], 2)] + Groups(bits[w..], w)
  }

  function Rest(bits: seq<int>, w: nat): (r: seq<int>)
    requires w > 0 && IsDigits(bits, 2)
    ensures |r| < w && IsDigits(r, 2)
    decreases |bits|
  {
    if |bits| < w then bits else Rest(bits[w..], w)
  }

  function Padded(bits: seq<int>, w: nat): (r: seq<int>)
    requires |bits| <= w && IsDigits(bits, 2)
    ensures |r| == w && IsDigits(r, 2)
  {
    bits + Repeat(0, w - |bits|)
  }

  predicate AllZero(bits: seq<int>) {
    forall i :: 0 <= i < |bits| ==> bits[i] == 0
  }

  function Convert(data: seq<int>, from: nat, to: nat, pad: bool): (r: Result<seq<int>, RegroupError>)
    requires to > 0
    ensures r.Ok? ==> IsDigits(r.value, Pow(2, to))
  {
    if !IsDigits(data, Pow(2, from)) then Err(OutOfRange) else
    var bits := BitString(data, from);
    var rest := Rest(bits, to);
    ValueRange(Padded(rest, to), 2);
    if pad then
      Ok(if rest == [] then Groups(bits, to) else Groups(bits, to) + [Value(Padded(rest, to), 2)])
    else if |rest| >= from || !AllZero(rest) then Err(BadPadding)
    else Ok(Groups(bits, to))
  }

  // ---- bit strings ----

  lemma {:induction false} BitStringConcat(xs: seq<int>, ys: seq<int>, w: nat)
    requires IsDigits(xs, Pow(2, w)) && IsDigits(ys, Pow(2, w))
    ensures IsDigits(xs + ys, Pow(2, w))
    ensures BitString(xs + ys, w) == BitString(xs, w) + BitString(ys, w)
  {
    if xs == [] {
      assert xs + ys == ys;
    } else {
      assert (xs + ys)[1..] == xs[1..] + ys;
      BitStringConcat(xs[1..], ys, w);
    }
  }

  lemma BitStringOne(v: int, w: nat)
    requires 0 <= v < Pow(2, w)
    ensures BitString([v], w) == Fixed(v, 2, w)
  {
    assert [v][1..] == [];
    assert BitString([], w) == [];
    assert Fixed(v, 2, w) + [] == Fixed(v, 2, w);
  }

  // The first w bits are the first value, the others the rest.
  lemma BitStringHead(xs: seq<int>, w: nat)
    requires IsDigits(xs, Pow(2, w)) && xs != []
    ensures var bits := BitString(xs, w);
            |bits| >= w && bits[..w] == Fixed(xs[0], 2, w) && bits[w..] == BitString(xs[1..], w)
    ensures Value(Fixed(xs[0], 2, w), 2) == xs[0]
  {
    FixedValue(xs[0], 2, w);
    hide Value, Pow;
  }

  lemma {:induction false} BitStringInjective(xs: seq<int>, ys: seq<int>, w: nat)
    requires IsDigits(xs, Pow(2, w)) && IsDigits(ys, Pow(2, w)) && |xs| == |ys|
    requires BitString(xs, w) == BitString(ys, w)
    ensures xs == ys
    decreases xs
  {
    hide BitString, Fixed, Value, Pow;
    if xs != [] {
      BitStringHead(xs, w);
      BitStringHead(ys, w);
      BitStringInjective(xs[1..], ys[1..], w);
      assert xs == [xs[0]] + xs[1..] && ys == [ys[0]] + ys[1..];
    }
  }

  // Grouping inverts the bit string, and what does not fill a group is left over.
  lemma {:induction false} GroupsOfBits(xs: seq<int>, rest: seq<int>, w: nat)
    requires w > 0 && IsDigits(xs, Pow(2, w)) && |rest| < w && IsDigits(rest, 2)
    ensures IsDigits(BitString(xs, w) + rest, 2)
    ensures Groups(BitString(xs, w) + rest, w) == xs && Rest(BitString(xs, w) + rest, w) == rest
  {
    var bits := BitString(xs, w) + rest;
    if xs == [] {
      assert bits == rest;
    } else {
      assert bits[..w] == Fixed(xs[0], 2, w);
      assert bits[w..] == BitString(xs[1..], w) + rest;
      FixedValue(xs[0], 2, w);
      GroupsOfBits(xs[1..], rest, w);
      assert |bits| >= w;
      assert xs == [xs[0]] + xs[1..];
    }
  }

  lemma {:induction false} BitsOfGroups(bits: seq<int>, w: nat)
    requires w > 0 && IsDigits(bits, 2)
    ensures BitString(Groups(bits, w), w) + Rest(bits, w) == bits
    decreases |bits|
  {
    if |bits| < w {
      assert BitString([], w) + bits == bits;
    } else {
      BitsOfGroups(bits[w..], w);
      ValueRange(bits[..w], 2);
      FixedOfValue(bits[..w], 2);
      BitStringCons(Value(bits[..w], 2), Groups(bits[w..], w), w);
      Glue(bits, w, BitString(Groups(bits[w..], w), w), Rest(bits[w..], w));
    }
  }

  lemma Glue(bits: seq<int>, w: nat, low: seq<int>, rest: seq<int>)
    requires w <= |bits| && low + rest == bits[w..]
    ensures (bits[..w] + low) + rest == bits
  {
  }

  lemma BitStringCons(v: int, gs: seq<int>, w: nat)
    requires 0 <= v < Pow(2, w) && IsDigits(gs, Pow(2, w))
    ensures IsDigits([v] + gs, Pow(2, w))
    ensures BitString([v] + gs, w) == Fixed(v, 2, w) + BitString(gs, w)
  {
    assert ([v] + gs)[1..] == gs;
  }

  // ---- the two directions undo each other ----

  lemma {:induction false} BitStringLength(data: seq<int>, w: nat)
    requires IsDigits(data, Pow(2, w))
    ensures |BitString(data, w)| == w * |data|
  {
    if data != [] {
      BitStringLength(data[1..], w);
      assert w * |data| == w + w * (|data| - 1);
    }
  }

  // Padding adds fewer than one group of zero bits to the stream.
  lemma PaddedStream(data: seq<int>, from: nat, to: nat) returns (pad: nat)
    requires to > 0 && IsDigits(data, Pow(2, from))
    ensures Convert(data, from, to, true).Ok? && pad < to
    ensures BitString(Convert(data, from, to, true).value, to) == BitString(data, from) + Repeat(0, pad)
  {
    hide Value, Fixed, Pow, Groups, Rest, BitString;
    var bits := BitString(data, from);
    var rest := Rest(bits, to);
    var gs := Groups(bits, to);
    BitsOfGroups(bits, to);
    if rest == [] {
      pad := 0;
      assert BitString(gs, to) + rest == BitString(gs, to);
    } else {
      pad := to - |rest|;
      var last := Padded(rest, to);
      ValueRange(last, 2);
      FixedOfValue(last, 2);
      BitStringOne(Value(last, 2), to);
      BitStringConcat(gs, [Value(last, 2)], to);
      assert (BitString(gs, to) + rest) + Repeat(0, pad) == BitString(gs, to) + (rest + Repeat(0, pad));
    }
  }

  lemma RegroupRoundTrip(data: seq<int>, from: nat, to: nat)
    requires 0 < to <= from && IsDigits(data, Pow(2, from))
    ensures Convert(data, from, to, true).Ok?
    ensures Convert(Convert(data, from, to, true).value, to, from, false) == Ok(data)
  {
    var pad := PaddedStream(data, from, to);
    GroupsOfBits(data, Repeat(0, pad), from);
  }

  // Strict regrouping accepts only what padded regrouping produces.
  lemma RegroupCanonical(d: seq<int>, from: nat, to: nat)
    requires 0 < to <= from && Convert(d, to, from, false).Ok?
    ensures Convert(Convert(d, to, from, false).value, from, to, true) == Ok(d)
  {
    var bits := BitString(d, to);
    var data := Groups(bits, from);
    var rest := Rest(bits, from);
    BitsOfGroups(bits, from);
    var pad := PaddedStream(data, from, to);
    var e := Convert(data, from, to, true).value;
    assert rest == Repeat(0, |rest|);
    BitStringLength(d, to);
    BitStringLength(e, to);
    SameMultiple(to, |d|, |e|, |BitString(data, from)|);
    BitStringInjective(d, e, to);
  }

  lemma SameMultiple(t: nat, x: nat, y: nat, base: int)
    requires 0 <= t * x - base < t && 0 <= t * y - base < t
    ensures x == y
  {
    assert t * (x - y) == t * x - t * y;
    SmallMultiple(x - y, t);
  }

  // ---- the accumulator loop ----

  lemma {:induction false} ZeroValue(bits: seq<int>)
    requires IsDigits(bits, 2)
    ensures Value(bits, 2) == 0 <==> AllZero(bits)
  {
    ValueRange(bits, 2);
    if bits != [] {
      var n := |bits| - 1;
      ValueRange(bits[..n], 2);
      ZeroValue(bits[..n]);
    }
  }

  // (acc << (w - k)) & (2^w - 1) is the value of the last k bits padded to w bits.
  lemma ShiftedTail(acc: nat, k: nat, w: nat)
    requires k <= w
    ensures Pow(2, w) > 0
    ensures (acc * Pow(2, w - k)) % Pow(2, w) == Value(Padded(Fixed(acc, 2, k), w), 2)
  {
    var z := w - k;
    PowPositive(2, z);
    PowPositive(2, w);
    FixedOfSum(acc, 0, 2, k, z);
    FixedOfZero(2, z);
    var n := acc * Pow(2, z);
    FixedMask(n, 2, w, w);
    FixedValue(n % Pow(2, w), 2, w);
  }

  lemma Absorb(acc: nat, bits: nat, value: nat, from: nat, mask: nat)
    requires value < Pow(2, from) && bits + from <= mask
    ensures Pow(2, mask) > 0
    ensures var next := (acc * Pow(2, from) + value) % Pow(2, mask);
            next >= 0 && Fixed(next, 2, bits + from) == Fixed(acc, 2, bits) + Fixed(value, 2, from)
  {
    PowPositive(2, mask);
    FixedOfSum(acc, value, 2, bits, from);
    FixedMask(acc * Pow(2, from) + value, 2, bits + from, mask);
  }

  lemma Emit(acc: nat, bits: nat, to: nat)
    ensures Pow(2, bits) > 0 && Pow(2, to) > 0
    ensures var g := (acc / Pow(2, bits)) % Pow(2, to);
            0 <= g < Pow(2, to) && Fixed(acc, 2, to + bits) == Fixed(g, 2, to) + Fixed(acc, 2, bits)
  {
    PowPositive(2, bits);
    PowPositive(2, to);
    FixedSplit(acc, 2, to, bits);
    FixedMask(acc / Pow(2, bits), 2, to, to);
  }

  // The groups emitted so far and the last bits of the accumulator make up the stream.
  ghost predicate Accounts(ret: seq<int>, acc: int, bits: nat, to: nat, data: seq<int>, from: nat) {
    && acc >= 0 && IsDigits(ret, Pow(2, to)) && IsDigits(data, Pow(2, from))
    && BitString(ret, to) + Fixed(acc, 2, bits) == BitString(data, from)
  }

  lemma AbsorbAccounts(ret: seq<int>, acc: nat, bits: nat, to: nat, data: seq<int>, from: nat, value: nat)
    requires Accounts(ret, acc, bits, to, data, from) && bits < to && from > 0 && value < Pow(2, from)
    ensures Pow(2, from + to - 1) > 0
    ensures Accounts(ret, (acc * Pow(2, from) + value) % Pow(2, from + to - 1), bits + from, to, data + [value], from)
  {
    hide Fixed, Pow, BitString;
    BitStringConcat(data, [value], from);
    BitStringOne(value, from);
    Absorb(acc, bits, value, from, from + to - 1);
  }

  lemma EmitAccounts(ret: seq<int>, acc: nat, bits: nat, to: nat, data: seq<int>, from: nat)
    requires Accounts(ret, acc, to + bits, to, data, from)
    ensures Pow(2, bits) > 0 && Pow(2, to) > 0
    ensures Accounts(ret + [(acc / Pow(2, bits)) % Pow(2, to)], acc, bits, to, data, from)
  {
    hide Fixed, Pow, BitString;
    Emit(acc, bits, to);
    var g := (acc / Pow(2, bits)) % Pow(2, to);
    BitStringConcat(ret, [g], to);
    BitStringOne(g, to);
    assert BitString(ret, to) + (Fixed(g, 2, to) + Fixed(acc, 2, bits))
        == (BitString(ret, to) + Fixed(g, 2, to)) + Fixed(acc, 2, bits);
  }

  // What the tail of convertBits decides, in terms of the whole stream.
  lemma TailDecides(ret: seq<int>, acc: nat, bits: nat, to: nat, data: seq<int>, from: nat)
    requires Accounts(ret, acc, bits, to, data, from) && bits < to
    ensures Pow(2, to) > 0
    ensures var last := (acc * Pow(2, to - bits)) % Pow(2, to);
            && Convert(data, from, to, true) == Ok(if bits > 0 then ret + [last] else ret)
            && Convert(data, from, to, false) == if bits >= from || last != 0 then Err(BadPadding) else Ok(ret)
  {
    hide Fixed, Pow, Value, Groups, Rest, BitString;
    var rest := Fixed(acc, 2, bits);
    GroupsOfBits(ret, rest, to);
    ShiftedTail(acc, bits, to);
    ZeroValue(Padded(rest, to));
    assert AllZero(rest) <==> AllZero(Padded(rest, to)) by {
      assert forall i :: 0 <= i < |rest| ==> Padded(rest, to)[i] == rest[i];
    }
  }

  method ConvertBits(data: seq<int>, from: nat, to: nat, pad: bool) returns (r: Result<seq<int>, RegroupError>)
    requires from > 0 && to > 0 && forall i :: 0 <= i < |data| ==> data[i] >= 0
    ensures r == Convert(data, from, to, pad)
  {
    var acc, bits := 0, 0;
    var ret: seq<int> := [];
    hide Fixed, Pow, BitString;
    StartAccounts(to, from);
    for i := 0 to |data|
      invariant 0 <= bits < to && Accounts(ret, acc, bits, to, data[..i], from)
    {
      PowPositive(2, from);
      OutOfRangeTest(data[i], Pow(2, from));
      if data[i] / Pow(2, from) != 0 {
        return Err(OutOfRange);
      }
      AbsorbAccounts(ret, acc, bits, to, data[..i], from, data[i]);
      assert data[..i + 1] == data[..i] + [data[i]];
      acc := (acc * Pow(2, from) + data[i]) % Pow(2, from + to - 1);
      bits := bits + from;
      while bits >= to
        invariant 0 <= bits && Accounts(ret, acc, bits, to, data[..i + 1], from)
      {
        bits := bits - to;
        EmitAccounts(ret, acc, bits, to, data[..i + 1], from);
        ret := ret + [(acc / Pow(2, bits)) % Pow(2, to)];
      }
    }
    assert data[..|data|] == data;
    TailDecides(ret, acc, bits, to, data, from);
    var last := (acc * Pow(2, to - bits)) % Pow(2, to);
    if pad {
      if bits > 0 {
        ret := ret + [last];
      }
      return Ok(ret);
    }
    if bits >= from || last != 0 {
      return Err(BadPadding);
    }
    return Ok(ret);
  }

  lemma StartAccounts(to: nat, from: nat)
    ensures Accounts([], 0, 0, to, [], from)
  {
  }

  lemma OutOfRangeTest(v: nat, p: nat)
    requires p > 0
    ensures v / p == 0 <==> v < p
  {
    if v >= p {
      assert v == (v / p) * p + v % p;
    } else {
      QuotientRemainder(0, p, v);
    }
  }
}
