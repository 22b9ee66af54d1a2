/** DER signatures with low S: derEncodeSignature and the normalisation in internal/bitcoin/tx.go. */
module Der {
  import opened Common
  import opened Radix

  // The order of secp256k1.
  const ORDER: nat := 0xFFFFFFFF_FFFFFFFF_FFFFFFFF_FFFFFFFE_BAAEDCE6_AF48A03B_BFD25E8C_D0364141

  function LowS(s: nat): int
    requires s < ORDER
  {
    if s > ORDER / 2 then ORDER - s else s
  }

  // A positive integer, with a zero byte in front when the top bit is set.
  function DerInt(n: nat): (b: seq<byte>)
    requires n > 0
    ensures b != []
  {
    DigitsValue(n, 256);
    var b := Minimal(n);
    if b[0] >= 0x80 then [0x00] + b else b
  }

  function Inner(r: nat, s: nat): seq<byte>
    requires r > 0 && s > 0
  {
    [0x02, |DerInt(r)| % 256] + DerInt(r) + [0x02, |DerInt(s)| % 256] + DerInt(s)
  }

  function Encode(r: nat, s: nat): seq<byte>
    requires r > 0 && s > 0
  {
    [0x30, |Inner(r, s)| % 256] + Inner(r, s)
  }

  // A reader of one integer: tag, length, non-negative contents.
  function ReadInt(bs: seq<byte>): Option<(nat, seq<byte>)> {
    if |bs| < 2 || bs[0] != 0x02 then None else
    var n: int := bs[1];
    if |bs| < 2 + n || n == 0 || bs[2] >= 0x80 then None else
    ValueRange(bs[2..2 + n], 256);
    Some((Value(bs[2..2 + n], 256), bs[2 + n..]))
  }

  function Decode(bs: seq<byte>): Option<(nat, nat)> {
    if |bs| < 2 || bs[0] != 0x30 || bs[1] != |bs| - 2 then None else
    var r := ReadInt(bs[2..]);
    if r.None? then None else
    var s := ReadInt(r.value.1);
    if s.None? || s.value.1 != [] then None else Some((r.value.0, s.value.0))
  }

  // The order in the form SEC 2 gives its distance from 2^256.
  lemma OrderIs()
    ensures ORDER == Pow(256, 32) - 432420386565659656852420866394968145599
  {
    assert Pow(256, 4) == 0x1_0000_0000;
    PowAdd(256, 4, 4);
    PowAdd(256, 8, 8);
    PowAdd(256, 16, 16);
  }

  lemma Powers()
    ensures Pow(256, 31) * 128 > ORDER / 2 && ORDER < Pow(256, 32)
  {
    var p8 := Pow(256, 8);
    assert Pow(256, 4) == 0x1_0000_0000;
    PowAdd(256, 4, 4);
    assert p8 == 0x1_0000_0000_0000_0000;
    PowAdd(256, 8, 8);
    PowAdd(256, 16, 8);
    assert Pow(256, 7) == 0x100_0000_0000_0000 by {
      assert Pow(256, 8) == 256 * Pow(256, 7);
    }
    PowAdd(256, 24, 7);
    assert Pow(256, 32) == 256 * Pow(256, 31);
  }

  lemma DerIntValue(n: nat)
    requires n > 0
    ensures DerInt(n)[0] < 0x80 && Value(DerInt(n), 256) == n
  {
    hide Digits;
    DigitsValue(n, 256);
    var b := Minimal(n);
    if b[0] >= 0x80 {
      ValueConcat([0x00], b, 256);
      ValueSnoc([], 0, 256);
      assert [] + [0x00] == [0x00];
    }
  }

  // 33 bytes hold any integer below the order, 32 any integer up to half of it.
  lemma DerIntLength(n: nat)
    requires 0 < n < ORDER
    ensures |DerInt(n)| <= 33
    ensures n <= ORDER / 2 ==> |DerInt(n)| <= 32
  {
    Powers();
    hide Pow, Digits;
    PaddedDigits(n, 256, 32);
    DigitsValue(n, 256);
    var b := Minimal(n);
    if |b| == 32 && b[0] >= 0x80 {
      TopByte(b);
    }
  }

  lemma TopByte(b: seq<byte>)
    requires |b| == 32 && b[0] >= 0x80
    ensures Value(b, 256) >= 128 * Pow(256, 31)
  {
    hide Pow;
    assert b == [b[0]] + b[1..];
    ValueConcat([b[0]], b[1..], 256);
    ValueRange(b[1..], 256);
    PowPositive(256, 31);
    assert Value([b[0]], 256) == Value([], 256) * 256 + b[0] by {
      assert [b[0]][..0] == [];
    }
    Scale(b[0], Pow(256, 31));
  }

  lemma Scale(d: nat, p: nat)
    requires d >= 128
    ensures d * p >= 128 * p
  {
  }

  lemma LowSRange(s: nat)
    requires 0 < s < ORDER
    ensures 0 < LowS(s) <= ORDER / 2
  {
  }

  // A normalised signature takes at most 71 bytes, 72 with the hash type.
  lemma EncodeLength(r: nat, s: nat)
    requires 0 < r < ORDER && 0 < s <= ORDER / 2
    ensures |Encode(r, s)| == 6 + |DerInt(r)| + |DerInt(s)| <= 71
  {
    hide DerInt;
    DerIntLength(r);
    DerIntLength(s);
  }

  lemma ReadIntWrites(n: nat, rest: seq<byte>)
    requires 0 < n < ORDER
    ensures ReadInt([0x02, |DerInt(n)| % 256] + DerInt(n) + rest) == Some((n, rest))
  {
    hide DerInt;
    DerIntLength(n);
    DerIntValue(n);
    var b := DerInt(n);
    var bs := [0x02, |b| % 256] + b + rest;
    assert bs[2] == b[0];
    assert bs[2..2 + |b|] == b;
    assert bs[2 + |b|..] == rest;
  }

  // DER encoding can be read back.
  lemma DecodeEncode(r: nat, s: nat)
    requires 0 < r < ORDER && 0 < s <= ORDER / 2
    ensures Decode(Encode(r, s)) == Some((r, s))
  {
    hide DerInt, ReadInt;
    EncodeLength(r, s);
    var second := [0x02, |DerInt(s)| % 256] + DerInt(s);
    assert second + [] == second;
    assert Encode(r, s)[2..] == [0x02, |DerInt(r)| % 256] + DerInt(r) + second;
    ReadIntWrites(r, second);
    ReadIntWrites(s, []);
  }
}
