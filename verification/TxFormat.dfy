/**
  The transaction bytes that internal/bitcoin/tx.go and util.go write, and a parser for the wire
  format they follow (BIP 141/BIP 144). Parsers return what is left of the input.
 */
module TxFormat {
  import opened Common
  import opened Radix

  type parsed<T> = Option<(T, seq<byte>)>

  const SEQUENCE: nat := 0xffff_ffff

  type u32 = x: int | 0 <= x < 0x1_0000_0000
  type i64 = x: int | -0x8000_0000_0000_0000 <= x < 0x8000_0000_0000_0000
  const U64: nat := 0x1_0000_0000_0000_0000

  datatype OutPoint = OutPoint(hash: seq<byte>, vout: u32)
  datatype TxOut = TxOut(value: i64, script: seq<byte>)
  datatype TxIn = TxIn(prev: OutPoint, scriptSig: seq<byte>, sequence: nat)
  datatype Tx = Tx(version: nat, ins: seq<TxIn>, outs: seq<TxOut>, witnesses: seq<seq<seq<byte>>>, lockTime: nat)

  // ---- integers ----

  function LE(v: nat, k: nat): (bs: seq<byte>)
    ensures |bs| == k
    decreases k
  {
    if k == 0 then [] else [v % 256] + LE(v / 256, k - 1)
  }

  function FromLE(bs: seq<byte>): nat {
    if bs == [] then 0 else bs[0] + 256 * FromLE(bs[1..])
  }

  function ReadLE(bs: seq<byte>, k: nat): parsed<nat> {
    if |bs| < k then None else Some((FromLE(bs[..k]), bs[k..]))
  }

  function ReadBytes(bs: seq<byte>, k: nat): parsed<seq<byte>> {
    if |bs| < k then None else Some((bs[..k], bs[k..]))
  }

  function Varint(n: nat): seq<byte> {
    if n < 0xfd then [n]
    else if n <= 0xffff then [0xfd] + LE(n, 2)
    else if n <= 0xffff_ffff then [0xfe] + LE(n, 4)
    else [0xff] + LE(n, 8)
  }

  function ReadVarint(bs: seq<byte>): parsed<nat> {
    if bs == [] then None
    else if bs[0] < 0xfd then Some((bs[0], bs[1..]))
    else if bs[0] == 0xfd then ReadLE(bs[1..], 2)
    else if bs[0] == 0xfe then ReadLE(bs[1..], 4)
    else ReadLE(bs[1..], 8)
  }

  // Two's complement, as the conversion uint64(v) does.
  function ToU64(v: i64): nat {
    if v < 0 then v + U64 else v
  }

  function FromU64(n: nat): i64
    requires n < U64
  {
    if n >= 0x8000_0000_0000_0000 then n - U64 else n
  }

  lemma {:induction false} ReadLEWrites(v: nat, k: nat, rest: seq<byte>)
    requires v < Pow(256, k)
    ensures ReadLE(LE(v, k) + rest, k) == Some((v, rest))
  {
    assert (LE(v, k) + rest)[..k] == LE(v, k);
    FromLEWrites(v, k);
  }

  lemma {:induction false} FromLEWrites(v: nat, k: nat)
    requires v < Pow(256, k)
    ensures FromLE(LE(v, k)) == v
    decreases k
  {
    if k > 0 {
      QuotientBelow(v, 256, Pow(256, k - 1));
      FromLEWrites(v / 256, k - 1);
      assert LE(v, k)[1..] == LE(v / 256, k - 1);
    }
  }

  lemma {:induction false} FromLERange(bs: seq<byte>)
    ensures FromLE(bs) < Pow(256, |bs|)
  {
    if bs != [] {
      FromLERange(bs[1..]);
    }
  }

  lemma WidthPowers()
    ensures Pow(256, 2) == 0x1_0000 && Pow(256, 4) == 0x1_0000_0000 && Pow(256, 8) == U64
  {
    PowAdd(256, 4, 4);
  }

  lemma ReadVarintWrites(n: nat, rest: seq<byte>)
    requires n < U64
    ensures ReadVarint(Varint(n) + rest) == Some((n, rest))
  {
    WidthPowers();
    hide LE, ReadLE, Pow;
    var bs := Varint(n) + rest;
    if n < 0xfd {
      assert bs[1..] == rest;
    } else if n <= 0xffff {
      assert bs[1..] == LE(n, 2) + rest;
      ReadLEWrites(n, 2, rest);
    } else if n <= 0xffff_ffff {
      assert bs[1..] == LE(n, 4) + rest;
      ReadLEWrites(n, 4, rest);
    } else {
      assert bs[1..] == LE(n, 8) + rest;
      ReadLEWrites(n, 8, rest);
    }
  }

  // ---- lists ----

  function WriteMany<T>(write: T -> seq<byte>, xs: seq<T>): seq<byte> {
    if xs == [] then [] else write(xs[0]) + WriteMany(write, xs[1..])
  }

  function ReadMany<T>(read: seq<byte> -> parsed<T>, n: nat, bs: seq<byte>): parsed<seq<T>> {
    if n == 0 then Some(([], bs)) else
    var first := read(bs);
    if first.None? then None else
    var others := ReadMany(read, n - 1, first.value.1);
    if others.None? then None else Some(([first.value.0] + others.value.0, others.value.1))
  }

  // read undoes write on x, whatever follows.
  ghost predicate Undoes<T(!new)>(read: seq<byte> -> parsed<T>, write: T -> seq<byte>, x: T) {
    forall rest :: read(write(x) + rest) == Some((x, rest))
  }

  lemma {:induction false} ReadManyWrites<T(!new)>(read: seq<byte> -> parsed<T>, write: T -> seq<byte>, xs: seq<T>, rest: seq<byte>)
    requires forall i :: 0 <= i < |xs| ==> Undoes(read, write, xs[i])
    ensures ReadMany(read, |xs|, WriteMany(write, xs) + rest) == Some((xs, rest))
    decreases xs
  {
    if xs == [] {
      assert WriteMany(write, xs) + rest == rest;
    } else {
      var tail := WriteMany(write, xs[1..]);
      assert (write(xs[0]) + tail) + rest == write(xs[0]) + (tail + rest);
      assert Undoes(read, write, xs[0]);
      ReadManyWrites(read, write, xs[1..], rest);
      assert xs == [xs[0]] + xs[1..];
    }
  }

  lemma {:induction false} WriteManyAppend<T>(write: T -> seq<byte>, xs: seq<T>, x: T)
    ensures WriteMany(write, xs + [x]) == WriteMany(write, xs) + write(x)
    decreases xs
  {
    if xs == [] {
      assert xs + [x] == [x] && [x][1..] == [];
      assert WriteMany(write, []) == [];
      assert write(x) + [] == write(x);
    } else {
      assert (xs + [x])[1..] == xs[1..] + [x];
      WriteManyAppend(write, xs[1..], x);
    }
  }

  // ---- inputs, outputs, witnesses ----

  function WriteIn(o: OutPoint): seq<byte> {
    o.hash + LE(o.vout, 4) + [0x00] + LE(SEQUENCE, 4)
  }

  function ReadIn(bs: seq<byte>): parsed<TxIn> {
    var hash := ReadBytes(bs, 32);
    if hash.None? then None else
    var vout := ReadLE(hash.value.1, 4);
    if vout.None? then None else
    VoutRange(hash.value.1);
    var len := ReadVarint(vout.value.1);
    if len.None? then None else
    var script := ReadBytes(len.value.1, len.value.0);
    if script.None? then None else
    var sequence := ReadLE(script.value.1, 4);
    if sequence.None? then None else
    Some((TxIn(OutPoint(hash.value.0, vout.value.0), script.value.0, sequence.value.0), sequence.value.1))
  }

  lemma VoutRange(bs: seq<byte>)
    requires |bs| >= 4
    ensures FromLE(bs[..4]) < 0x1_0000_0000
  {
    WidthPowers();
    FromLERange(bs[..4]);
  }

  function WriteItem(item: seq<byte>): seq<byte> {
    Varint(|item|) + item
  }

  function ReadItem(bs: seq<byte>): parsed<seq<byte>> {
    var len := ReadVarint(bs);
    if len.None? then None else ReadBytes(len.value.1, len.value.0)
  }

  function WriteOut(t: TxOut): seq<byte> {
    LE(ToU64(t.value), 8) + WriteItem(t.script)
  }

  function ReadOut(bs: seq<byte>): parsed<TxOut> {
    var value := ReadLE(bs, 8);
    if value.None? then None else
    ValueU64(bs);
    var script := ReadItem(value.value.1);
    if script.None? then None else
    Some((TxOut(FromU64(value.value.0), script.value.0), script.value.1))
  }

  lemma ValueU64(bs: seq<byte>)
    requires |bs| >= 8
    ensures FromLE(bs[..8]) < U64
  {
    WidthPowers();
    FromLERange(bs[..8]);
  }

  function WriteWitness(w: seq<seq<byte>>): seq<byte> {
    Varint(|w|) + WriteMany(WriteItem, w)
  }

  function ReadWitness(bs: seq<byte>): parsed<seq<seq<byte>>> {
    var n := ReadVarint(bs);
    if n.None? then None else ReadMany(ReadItem, n.value.0, n.value.1)
  }

  lemma ReadItemWrites(item: seq<byte>)
    requires |item| < U64
    ensures Undoes(ReadItem, WriteItem, item)
  {
    hide ReadVarint, Varint;
    forall rest
      ensures ReadItem(WriteItem(item) + rest) == Some((item, rest))
    {
      assert WriteItem(item) + rest == Varint(|item|) + (item + rest);
      ReadVarintWrites(|item|, item + rest);
    }
  }

  lemma ReadOutWrites(t: TxOut)
    requires |t.script| < U64
    ensures Undoes(ReadOut, WriteOut, t)
  {
    WidthPowers();
    hide ReadItem, WriteItem, LE, ReadLE, Pow;
    ReadItemWrites(t.script);
    forall rest
      ensures ReadOut(WriteOut(t) + rest) == Some((t, rest))
    {
      var tail := WriteItem(t.script) + rest;
      assert WriteOut(t) + rest == LE(ToU64(t.value), 8) + tail;
      ReadLEWrites(ToU64(t.value), 8, tail);
    }
  }

  lemma ReadInWrites(o: OutPoint, rest: seq<byte>)
    requires |o.hash| == 32
    ensures ReadIn(WriteIn(o) + rest) == Some((TxIn(o, [], SEQUENCE), rest))
  {
    WidthPowers();
    hide LE, ReadLE, ReadVarint, Pow;
    var last := LE(SEQUENCE, 4) + rest;
    var tail := Varint(0) + last;
    var mid := LE(o.vout, 4) + tail;
    assert WriteIn(o) + rest == o.hash + mid;
    ReadLEWrites(o.vout, 4, tail);
    ReadVarintWrites(0, last);
    ReadLEWrites(SEQUENCE, 4, rest);
  }

  function Spend(o: OutPoint): TxIn {
    TxIn(o, [], SEQUENCE)
  }

  function Spends(ops: seq<OutPoint>): (ins: seq<TxIn>)
    ensures |ins| == |ops| && forall i :: 0 <= i < |ops| ==> ins[i] == Spend(ops[i])
  {
    seq(|ops|, i requires 0 <= i < |ops| => Spend(ops[i]))
  }

  lemma {:induction false} ReadInsWrites(ops: seq<OutPoint>, rest: seq<byte>)
    requires forall i :: 0 <= i < |ops| ==> |ops[i].hash| == 32
    ensures ReadMany(ReadIn, |ops|, WriteMany(WriteIn, ops) + rest) == Some((Spends(ops), rest))
    decreases ops
  {
    hide WriteIn, ReadIn;
    if ops == [] {
      assert WriteMany(WriteIn, ops) + rest == rest;
    } else {
      var tail := WriteMany(WriteIn, ops[1..]);
      assert (WriteIn(ops[0]) + tail) + rest == WriteIn(ops[0]) + (tail + rest);
      ReadInWrites(ops[0], tail + rest);
      ReadInsWrites(ops[1..], rest);
      assert Spends(ops) == [Spend(ops[0])] + Spends(ops[1..]);
    }
  }

  lemma ReadWitnessWrites(w: seq<seq<byte>>)
    requires |w| < U64 && forall i :: 0 <= i < |w| ==> |w[i]| < U64
    ensures Undoes(ReadWitness, WriteWitness, w)
  {
    hide ReadVarint, Varint, ReadItem, WriteItem;
    forall i | 0 <= i < |w|
      ensures Undoes(ReadItem, WriteItem, w[i])
    {
      ReadItemWrites(w[i]);
    }
    forall rest
      ensures ReadWitness(WriteWitness(w) + rest) == Some((w, rest))
    {
      var items := WriteMany(WriteItem, w);
      assert WriteWitness(w) + rest == Varint(|w|) + (items + rest);
      ReadVarintWrites(|w|, items + rest);
      ReadManyWrites(ReadItem, WriteItem, w, rest);
    }
  }

  // ---- whole transactions ----

  // Inputs and outputs, shared by both serialisations.
  function Body(ops: seq<OutPoint>, outs: seq<TxOut>): seq<byte> {
    Varint(|ops|) + WriteMany(WriteIn, ops) + Varint(|outs|) + WriteMany(WriteOut, outs)
  }

  function Witnesses(wits: seq<seq<seq<byte>>>): seq<byte> {
    WriteMany(WriteWitness, wits)
  }

  // The bytes computeTxid hashes.
  function Legacy(ops: seq<OutPoint>, outs: seq<TxOut>): seq<byte> {
    LE(2, 4) + Body(ops, outs) + LE(0, 4)
  }

  // The bytes that are broadcast.
  function Segwit(ops: seq<OutPoint>, outs: seq<TxOut>, wits: seq<seq<seq<byte>>>): seq<byte> {
    LE(2, 4) + [0x00, 0x01] + Body(ops, outs) + Witnesses(wits) + LE(0, 4)
  }

  function ReadBody(bs: seq<byte>): parsed<(seq<TxIn>, seq<TxOut>)> {
    var nIn := ReadVarint(bs);
    if nIn.None? then None else
    var ins := ReadMany(ReadIn, nIn.value.0, nIn.value.1);
    if ins.None? then None else
    var nOut := ReadVarint(ins.value.1);
    if nOut.None? then None else
    var outs := ReadMany(ReadOut, nOut.value.0, nOut.value.1);
    if outs.None? then None else Some(((ins.value.0, outs.value.0), outs.value.1))
  }

  function ParseLegacy(bs: seq<byte>): Option<Tx> {
    var version := ReadLE(bs, 4);
    if version.None? then None else
    var body := ReadBody(version.value.1);
    if body.None? then None else
    var lockTime := ReadLE(body.value.1, 4);
    if lockTime.None? || lockTime.value.1 != [] then None else
    Some(Tx(version.value.0, body.value.0.0, body.value.0.1, [], lockTime.value.0))
  }

  function ParseSegwit(bs: seq<byte>): Option<Tx> {
    var version := ReadLE(bs, 4);
    if version.None? then None else
    var tail := version.value.1;
    if |tail| < 2 || tail[0] != 0x00 || tail[1] != 0x01 then None else
    var body := ReadBody(tail[2..]);
    if body.None? then None else
    var wits := ReadMany(ReadWitness, |body.value.0.0|, body.value.1);
    if wits.None? then None else
    var lockTime := ReadLE(wits.value.1, 4);
    if lockTime.None? || lockTime.value.1 != [] then None else
    Some(Tx(version.value.0, body.value.0.0, body.value.0.1, wits.value.0, lockTime.value.0))
  }

  // Everything has a length that fits its length prefix.
  ghost predicate Encodable(ops: seq<OutPoint>, outs: seq<TxOut>) {
    && |ops| < U64 && |outs| < U64
    && (forall i :: 0 <= i < |ops| ==> |ops[i].hash| == 32)
    && (forall i :: 0 <= i < |outs| ==> |outs[i].script| < U64)
  }

  ghost predicate EncodableWitness(w: seq<seq<byte>>) {
    |w| < U64 && forall i :: 0 <= i < |w| ==> |w[i]| < U64
  }

  lemma ReadBodyWrites(ops: seq<OutPoint>, outs: seq<TxOut>, rest: seq<byte>)
    requires Encodable(ops, outs)
    ensures ReadBody(Body(ops, outs) + rest) == Some(((Spends(ops), outs), rest))
  {
    hide ReadVarint, Varint, ReadIn, ReadOut, WriteIn, WriteOut, ReadMany, WriteMany;
    var outTail := WriteMany(WriteOut, outs) + rest;
    var inTail := Varint(|outs|) + outTail;
    var ins := WriteMany(WriteIn, ops);
    assert Body(ops, outs) + rest == Varint(|ops|) + (ins + inTail);
    ReadVarintWrites(|ops|, ins + inTail);
    ReadInsWrites(ops, inTail);
    ReadVarintWrites(|outs|, outTail);
    forall i | 0 <= i < |outs|
      ensures Undoes(ReadOut, WriteOut, outs[i])
    {
      ReadOutWrites(outs[i]);
    }
    ReadManyWrites(ReadOut, WriteOut, outs, rest);
  }

  // The broadcast bytes parse back to the outpoints, outputs and witnesses they were built from.
  lemma SegwitParses(ops: seq<OutPoint>, outs: seq<TxOut>, wits: seq<seq<seq<byte>>>)
    requires Encodable(ops, outs) && |wits| == |ops| && forall i :: 0 <= i < |wits| ==> EncodableWitness(wits[i])
    ensures ParseSegwit(Segwit(ops, outs, wits)) == Some(Tx(2, Spends(ops), outs, wits, 0))
  {
    WidthPowers();
    hide Pow, LE, ReadLE, Body, ReadBody, WriteMany, ReadMany, ReadWitness, WriteWitness;
    var end := LE(0, 4);
    var witTail := Witnesses(wits) + end;
    var bodyTail := Body(ops, outs) + witTail;
    var tail := [0x00, 0x01] + bodyTail;
    assert Segwit(ops, outs, wits) == LE(2, 4) + tail;
    ReadLEWrites(2, 4, tail);
    assert tail[2..] == bodyTail;
    ReadBodyWrites(ops, outs, witTail);
    forall i | 0 <= i < |wits|
      ensures Undoes(ReadWitness, WriteWitness, wits[i])
    {
      assert EncodableWitness(wits[i]);
      ReadWitnessWrites(wits[i]);
    }
    ReadManyWrites(ReadWitness, WriteWitness, wits, end);
    ReadLEWrites(0, 4, []);
    assert end + [] == end;
  }

  lemma LegacyParses(ops: seq<OutPoint>, outs: seq<TxOut>)
    requires Encodable(ops, outs)
    ensures ParseLegacy(Legacy(ops, outs)) == Some(Tx(2, Spends(ops), outs, [], 0))
  {
    WidthPowers();
    hide Pow, LE, ReadLE, Body, ReadBody;
    var end := LE(0, 4);
    var tail := Body(ops, outs) + end;
    assert Legacy(ops, outs) == LE(2, 4) + tail;
    ReadLEWrites(2, 4, tail);
    ReadBodyWrites(ops, outs, end);
    ReadLEWrites(0, 4, []);
    assert end + [] == end;
  }

  // The bytes hashed for the txid determine what is spent and what is paid.
  lemma LegacyDetermines(ops: seq<OutPoint>, outs: seq<TxOut>, ops': seq<OutPoint>, outs': seq<TxOut>)
    requires Encodable(ops, outs) && Encodable(ops', outs') && Legacy(ops, outs) == Legacy(ops', outs')
    ensures ops == ops' && outs == outs'
  {
    hide Legacy, ParseLegacy;
    LegacyParses(ops, outs);
    LegacyParses(ops', outs');
    assert forall i :: 0 <= i < |ops| ==> ops[i] == Spends(ops)[i].prev;
    assert forall i :: 0 <= i < |ops'| ==> ops'[i] == Spends(ops')[i].prev;
  }

  // Cutting marker, flag and witnesses out of the broadcast bytes leaves the bytes hashed for the txid.
  lemma StripWitness(ops: seq<OutPoint>, outs: seq<TxOut>, wits: seq<seq<seq<byte>>>)
    ensures var raw := Segwit(ops, outs, wits);
            var cut := |raw| - 4 - |Witnesses(wits)|;
            6 <= cut && raw[..4] + raw[6..cut] + raw[|raw| - 4..] == Legacy(ops, outs)
  {
    hide LE, Body, WriteMany;
    var raw := Segwit(ops, outs, wits);
    var cut := |raw| - 4 - |Witnesses(wits)|;
    assert raw[..4] == LE(2, 4);
    assert raw[6..cut] == Body(ops, outs);
    assert raw[|raw| - 4..] == LE(0, 4);
  }
}
