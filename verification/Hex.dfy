/** Hexadecimal text and transaction ids: hexNibble and reverseTxid of internal/bitcoin/util.go. */
module Hex {
  import opened Common
  import opened Text

  function Nibble(c: char): (n: int)
    ensures -1 <= n < 16
  {
    if '0' <= c <= '9' then c as int - '0' as int
    else if 'a' <= c <= 'f' then c as int - 'a' as int + 10
    else if 'A' <= c <= 'F' then c as int - 'A' as int + 10
    else -1
  }

  function HexChar(n: int): char
    requires 0 <= n < 16
  {
    if n < 10 then (n + 48) as char else (n + 87) as char
  }

  predicate IsHex(s: string) {
    |s| % 2 == 0 && forall i :: 0 <= i < |s| ==> Nibble(s[i]) >= 0
  }

  // Two digits, high one first; meant for digits that Nibble accepts.
  function HexByte(hi: char, lo: char): byte {
    if Nibble(hi) >= 0 && Nibble(lo) >= 0 then 16 * Nibble(hi) + Nibble(lo) else 0
  }

  function FromHex(s: string): (bs: seq<byte>)
    requires IsHex(s)
    ensures |bs| == |s| / 2 && forall i :: 0 <= i < |bs| ==> bs[i] == HexByte(s[2 * i], s[2 * i + 1])
  {
    seq(|s| / 2, i requires 0 <= i < |s| / 2 => HexByte(s[2 * i], s[2 * i + 1]))
  }

  function ToHex(bs: seq<byte>): (s: string)
    ensures |s| == 2 * |bs|
    ensures forall k :: 0 <= k < 2 * |bs| ==> s[k] == HexChar(if k % 2 == 0 then bs[k / 2] / 16 else bs[k / 2] % 16)
  {
    seq(2 * |bs|, k requires 0 <= k < 2 * |bs| => HexChar(if k % 2 == 0 then bs[k / 2] / 16 else bs[k / 2] % 16))
  }

  function Reversed(bs: seq<byte>): (r: seq<byte>)
    ensures |r| == |bs| && forall i :: 0 <= i < |bs| ==> r[i] == bs[|bs| - 1 - i]
  {
    seq(|bs|, i requires 0 <= i < |bs| => bs[|bs| - 1 - i])
  }

  // The 32 wire bytes of a transaction id, if it is 64 hexadecimal digits.
  function ReverseTxid(txid: string): (r: Option<seq<byte>>)
    ensures r.Some? ==> |r.value| == 32
  {
    if |txid| == 64 && IsHex(txid) then Some(Reversed(FromHex(txid))) else None
  }

  // The id of a transaction with the given hash.
  function TxidHex(hash: seq<byte>): string {
    ToHex(Reversed(hash))
  }

  // The sixteen digits, in either case.
  lemma NibbleExactly(c: char)
    ensures Nibble(c) >= 0 <==> '0' <= c <= '9' || 'a' <= LowerChar(c) <= 'f'
    ensures Nibble(c) >= 0 ==> HexChar(Nibble(c)) == LowerChar(c)
  {
  }

  lemma NibbleOfHexChar(n: int)
    requires 0 <= n < 16
    ensures Nibble(HexChar(n)) == n
  {
  }

  lemma HexCharOfNibble(c: char)
    requires Nibble(c) >= 0
    ensures HexChar(Nibble(c)) == LowerChar(c)
  {
  }

  lemma FromHexToHex(bs: seq<byte>)
    ensures IsHex(ToHex(bs)) && FromHex(ToHex(bs)) == bs
  {
    var s := ToHex(bs);
    hide Nibble, HexChar, ToHex;
    forall k | 0 <= k < |s|
      ensures Nibble(s[k]) == if k % 2 == 0 then bs[k / 2] / 16 else bs[k / 2] % 16
    {
      NibbleOfHexChar(if k % 2 == 0 then bs[k / 2] / 16 else bs[k / 2] % 16);
    }
    forall i | 0 <= i < |bs|
      ensures FromHex(s)[i] == bs[i]
    {
      assert (2 * i) / 2 == i && (2 * i + 1) / 2 == i && (2 * i + 1) % 2 == 1;
    }
  }

  // Where the two digits of byte i stand.
  lemma ToHexAt(bs: seq<byte>, i: nat)
    requires i < |bs|
    ensures ToHex(bs)[2 * i] == HexChar(bs[i] / 16) && ToHex(bs)[2 * i + 1] == HexChar(bs[i] % 16)
  {
    assert (2 * i) % 2 == 0 && (2 * i) / 2 == i;
    assert (2 * i + 1) % 2 == 1 && (2 * i + 1) / 2 == i;
    hide HexChar;
  }

  lemma PairAgrees(s: string, i: nat)
    requires IsHex(s) && 2 * i + 1 < |s|
    ensures ToHex(FromHex(s))[2 * i] == LowerChar(s[2 * i]) && ToHex(FromHex(s))[2 * i + 1] == LowerChar(s[2 * i + 1])
  {
    hide Nibble, HexChar, HexByte, LowerChar, ToHex;
    DigitsOfByte(s[2 * i], s[2 * i + 1]);
    ToHexAt(FromHex(s), i);
  }

  lemma ToHexFromHex(s: string)
    requires IsHex(s)
    ensures ToHex(FromHex(s)) == Lower(s)
  {
    hide IsHex, Nibble, HexChar, HexByte, LowerChar, ToHex, FromHex;
    HexEven(s);
    forall k | 0 <= k < |s|
      ensures ToHex(FromHex(s))[k] == LowerChar(s[k])
    {
      PairAgrees(s, k / 2);
      assert k == 2 * (k / 2) || k == 2 * (k / 2) + 1;
    }
  }

  lemma HexEven(s: string)
    requires IsHex(s)
    ensures |s| % 2 == 0 && |ToHex(FromHex(s))| == |s|
  {
  }

  lemma DigitsOfByte(hi: char, lo: char)
    requires Nibble(hi) >= 0 && Nibble(lo) >= 0
    ensures HexChar(HexByte(hi, lo) / 16) == LowerChar(hi) && HexChar(HexByte(hi, lo) % 16) == LowerChar(lo)
  {
    hide Nibble, HexChar;
    HexCharOfNibble(hi);
    HexCharOfNibble(lo);
  }

  // Ids and wire bytes determine each other, up to the case of the digits.
  lemma TxidRoundTrip(hash: seq<byte>, txid: string)
    ensures |hash| == 32 ==> ReverseTxid(TxidHex(hash)) == Some(hash)
    ensures ReverseTxid(txid).Some? ==> TxidHex(ReverseTxid(txid).value) == Lower(txid)
  {
    hide ToHex, FromHex, IsHex;
    FromHexToHex(Reversed(hash));
    assert Reversed(Reversed(hash)) == hash;
    if ReverseTxid(txid).Some? {
      ToHexFromHex(txid);
      assert Reversed(Reversed(FromHex(txid))) == FromHex(txid);
    }
  }

  // The byte order: the first two digits of an id are the last byte on the wire.
  lemma TxidOrder(hash: seq<byte>, txid: string, i: nat)
    requires i < 32
    ensures ReverseTxid(txid).Some? ==>
              |txid| == 64 && Nibble(txid[2 * i]) >= 0 && Nibble(txid[2 * i + 1]) >= 0
              && ReverseTxid(txid).value[31 - i] == 16 * Nibble(txid[2 * i]) + Nibble(txid[2 * i + 1])
    ensures |hash| == 32 ==>
              |TxidHex(hash)| == 64
              && Nibble(TxidHex(hash)[2 * i]) == hash[31 - i] / 16 && Nibble(TxidHex(hash)[2 * i + 1]) == hash[31 - i] % 16
  {
    hide Nibble, HexChar, ToHex;
    if |hash| == 32 {
      var bs := Reversed(hash);
      ToHexAt(bs, i);
      NibbleOfHexChar(bs[i] / 16);
      NibbleOfHexChar(bs[i] % 16);
    }
  }

  // reverseTxid: fills the buffer from the end.
  method ComputeReverseTxid(txid: string) returns (r: Option<seq<byte>>)
    ensures r == ReverseTxid(txid)
  {
    if |txid| != 64 {
      return None;
    }
    hide Nibble, HexByte;
    var b := new byte[32](i => 0);
    for i := 0 to 32
      invariant forall k :: 0 <= k < 2 * i ==> Nibble(txid[k]) >= 0
      invariant forall j :: 32 - i <= j < 32 ==> b[j] == HexByte(txid[2 * (31 - j)], txid[2 * (31 - j) + 1])
    {
      var hi, lo := Nibble(txid[2 * i]), Nibble(txid[2 * i + 1]);
      if hi < 0 || lo < 0 {
        return None;
      }
      b[31 - i] := HexByte(txid[2 * i], txid[2 * i + 1]);
    }
    assert IsHex(txid);
    assert b[..] == Reversed(FromHex(txid));
    return Some(b[..]);
  }
}
