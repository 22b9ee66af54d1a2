/**
  What BuildAndSignTx (internal/bitcoin/tx.go) signs, told from the bytes that are broadcast: a node
  that checks an input cuts the transaction into its sections and hashes them as BIP 143 lays down.
 */
module Sighash {
  import opened Common
  import opened TxFormat
  import opened TxBuild
  import Hex
  import Der

  // Where a reader of the broadcast bytes finds the inputs and the outputs.
  datatype Sections = Sections(nIn: nat, inputs: int, outputs: int, end: int)

  function Locate(raw: seq<byte>): Option<Sections> {
    if |raw| < 6 then None else
    var nIn := ReadVarint(raw[6..]);
    if nIn.None? then None else
    var ins := ReadMany(ReadIn, nIn.value.0, nIn.value.1);
    if ins.None? then None else
    var nOut := ReadVarint(ins.value.1);
    if nOut.None? then None else
    var outs := ReadMany(ReadOut, nOut.value.0, nOut.value.1);
    if outs.None? then None else
    Some(Sections(nIn.value.0, |raw| - |nIn.value.1|, |raw| - |nOut.value.1|, |raw| - |outs.value.1|))
  }

  // The bytes from..to of each of the first n inputs, which take 41 bytes each.
  function Column(raw: seq<byte>, at: int, n: nat, from: nat, to: nat): seq<byte>
    requires 0 <= at && at + 41 * n <= |raw| && from <= to <= 41
  {
    if n == 0 then []
    else
      var start := at + 41 * (n - 1);
      Column(raw, at, n - 1, from, to) + raw[start + from..start + to]
  }

  // The 182 bytes whose double hash a signature of input i must sign: version, hash of all outpoints,
  // hash of all sequences, the outpoint, the script code of the key hash, the value of the coin, the
  // sequence, the hash of all outputs, the lock time and SIGHASH_ALL.
  ghost predicate Bip143(h: seq<byte> -> seq<byte>, raw: seq<byte>, at: Sections, i: nat, value: i64, keyHash: seq<byte>,
                         p: seq<byte>) {
    && 0 <= at.inputs && i < at.nIn && at.inputs + 41 * at.nIn <= at.outputs <= at.end <= |raw| - 4 && |p| == 182
    && (var start := at.inputs + 41 * i;
        && p[..4] == raw[..4]
        && p[4..36] == h(Column(raw, at.inputs, at.nIn, 0, 36))
        && p[36..68] == h(Column(raw, at.inputs, at.nIn, 37, 41))
        && p[68..104] == raw[start..start + 36]
        && p[104..108] == [0x19, 0x76, 0xa9, 0x14] && p[108..128] == keyHash && p[128..130] == [0x88, 0xac]
        && FromLE(p[130..138]) == ToU64(value)
        && p[138..142] == raw[start + 37..start + 41]
        && p[142..174] == h(raw[at.outputs..at.end])
        && p[174..178] == raw[|raw| - 4..]
        && p[178..] == [0x01, 0x00, 0x00, 0x00])
  }

  // ---- the sections of a built transaction ----

  ghost function Places(ops: seq<OutPoint>, outs: seq<TxOut>): Sections {
    var a := 6 + |Varint(|ops|)|;
    var b := a + |WriteMany(WriteIn, ops)| + |Varint(|outs|)|;
    Sections(|ops|, a, b, b + |WriteMany(WriteOut, outs)|)
  }

  lemma Located(ops: seq<OutPoint>, outs: seq<TxOut>, wits: seq<seq<seq<byte>>>)
    requires Encodable(ops, outs)
    ensures Locate(Segwit(ops, outs, wits)) == Some(Places(ops, outs))
  {
    hide ReadVarint, Varint, ReadIn, ReadOut, WriteIn, WriteOut, ReadMany, WriteMany, LE;
    var raw := Segwit(ops, outs, wits);
    var rest := Witnesses(wits) + LE(0, 4);
    var outTail := WriteMany(WriteOut, outs) + rest;
    var inTail := Varint(|outs|) + outTail;
    var ins := WriteMany(WriteIn, ops) + inTail;
    assert raw[6..] == Varint(|ops|) + ins;
    ReadVarintWrites(|ops|, ins);
    ReadInsWrites(ops, inTail);
    ReadVarintWrites(|outs|, outTail);
    forall i | 0 <= i < |outs|
      ensures Undoes(ReadOut, WriteOut, outs[i])
    {
      ReadOutWrites(outs[i]);
    }
    ReadManyWrites(ReadOut, WriteOut, outs, rest);
  }

  // The written sections stand where they were located.
  lemma SectionBytes(ops: seq<OutPoint>, outs: seq<TxOut>, wits: seq<seq<seq<byte>>>)
    ensures var raw, at := Segwit(ops, outs, wits), Places(ops, outs);
            && at.inputs + |WriteMany(WriteIn, ops)| <= at.outputs <= at.end <= |raw| - 4
            && raw[at.inputs..at.inputs + |WriteMany(WriteIn, ops)|] == WriteMany(WriteIn, ops)
            && raw[at.outputs..at.end] == WriteMany(WriteOut, outs)
            && raw[..4] == LE(2, 4) && raw[|raw| - 4..] == LE(0, 4)
  {
    hide Varint, WriteMany, LE, WriteIn, WriteOut;
    var raw, at := Segwit(ops, outs, wits), Places(ops, outs);
    var head := LE(2, 4) + [0x00, 0x01] + Varint(|ops|);
    var ins, outputs := WriteMany(WriteIn, ops), WriteMany(WriteOut, outs);
    var tail := Witnesses(wits) + LE(0, 4);
    assert raw == head + ins + Varint(|outs|) + outputs + tail;
    assert |head| == at.inputs;
    assert raw == head + (ins + (Varint(|outs|) + outputs + tail));
    assert raw == (head + ins + Varint(|outs|)) + (outputs + tail);
    SliceOf(head, ins, Varint(|outs|) + outputs + tail);
    SliceOf(head + ins + Varint(|outs|), outputs, tail);
  }

  lemma SliceOf(a: seq<byte>, b: seq<byte>, c: seq<byte>)
    ensures (a + (b + c))[|a|..|a| + |b|] == b
  {
  }

  // Input j of a written list.
  lemma {:induction false} InputSlice(ops: seq<OutPoint>, j: nat)
    requires (forall i :: 0 <= i < |ops| ==> |ops[i].hash| == 32) && j < |ops|
    ensures |WriteMany(WriteIn, ops)| == 41 * |ops|
    ensures WriteMany(WriteIn, ops)[41 * j..41 * j + 41] == WriteIn(ops[j])
    decreases ops
  {
    hide LE;
    WriteManyLength(WriteIn, ops, 41);
    WriteManyLength(WriteIn, ops[1..], 41);
    var first, rest := WriteIn(ops[0]), WriteMany(WriteIn, ops[1..]);
    if j > 0 {
      InputSlice(ops[1..], j - 1);
      assert (first + rest)[41 * j..41 * j + 41] == rest[41 * (j - 1)..41 * (j - 1) + 41];
    }
  }

  // The parts of one input.
  lemma InputParts(o: OutPoint)
    requires |o.hash| == 32
    ensures |WriteIn(o)| == 41 && WriteIn(o)[..36] == PrevOut(o) && WriteIn(o)[37..41] == SequenceOf(o)
  {
    hide LE;
  }

  lemma {:induction false} Columns(raw: seq<byte>, at: nat, ops: seq<OutPoint>, k: nat)
    requires k <= |ops| && forall i :: 0 <= i < |ops| ==> |ops[i].hash| == 32
    requires at + 41 * |ops| <= |raw| && raw[at..at + 41 * |ops|] == WriteMany(WriteIn, ops)
    ensures Column(raw, at, k, 0, 36) == WriteMany(PrevOut, ops[..k])
    ensures Column(raw, at, k, 37, 41) == WriteMany(SequenceOf, ops[..k])
    decreases k
  {
    hide LE, WriteIn, PrevOut, SequenceOf;
    if k > 0 {
      var j := k - 1;
      Columns(raw, at, ops, j);
      InputAt(raw, at, ops, j);
      assert ops[..k] == ops[..j] + [ops[j]];
      WriteManyAppend(PrevOut, ops[..j], ops[j]);
      WriteManyAppend(SequenceOf, ops[..j], ops[j]);
      hide WriteMany;
    }
  }

  lemma SubSlice(s: seq<byte>, a: int, b: int, c: int, d: int)
    requires 0 <= a <= b <= |s| && 0 <= c <= d <= b - a
    ensures s[a..b][c..d] == s[a + c..a + d]
  {
    var t := s[a..b];
    forall k | 0 <= k < d - c
      ensures t[c..d][k] == s[a + c..a + d][k]
    {
      assert t[c..d][k] == t[c + k] == s[a + c + k];
    }
  }

  lemma InputAt(raw: seq<byte>, at: nat, ops: seq<OutPoint>, j: nat)
    requires j < |ops| && forall i :: 0 <= i < |ops| ==> |ops[i].hash| == 32
    requires at + 41 * |ops| <= |raw| && raw[at..at + 41 * |ops|] == WriteMany(WriteIn, ops)
    ensures var start := at + 41 * j;
            && start + 41 <= |raw|
            && raw[start..start + 36] == PrevOut(ops[j]) && raw[start + 37..start + 41] == SequenceOf(ops[j])
  {
    hide LE, WriteIn, WriteMany, PrevOut, SequenceOf;
    InputSlice(ops, j);
    InputParts(ops[j]);
    var start := at + 41 * j;
    SubSlice(raw, at, at + 41 * |ops|, 41 * j, 41 * j + 41);
    SubSlice(raw, start, start + 41, 0, 36);
    SubSlice(raw, start, start + 41, 37, 41);
  }

  // ---- what is signed ----

  // The preimage the builder hashes is the one a node would.
  lemma PreimageFits(sg: Signer, ops: seq<OutPoint>, outs: seq<TxOut>, wits: seq<seq<seq<byte>>>, i: nat, value: i64,
                     keyHash: seq<byte>)
    requires Proper(sg) && i < |ops| && |keyHash| == 20 && forall j :: 0 <= j < |ops| ==> |ops[j].hash| == 32
    ensures Bip143(sg.dsha256, Segwit(ops, outs, wits), Places(ops, outs), i, value, keyHash,
                   Preimage(sg, ops, outs, ops[i], value, keyHash))
  {
    hide LE, WriteIn, WriteOut, WriteMany, PrevOut, SequenceOf, Segwit, Preimage, Column, FromLE, ToU64, Proper;
    var raw, at := Segwit(ops, outs, wits), Places(ops, outs);
    SectionBytes(ops, outs, wits);
    InputSlice(ops, i);
    Columns(raw, at.inputs, ops, |ops|);
    assert ops[..|ops|] == ops;
    InputAt(raw, at.inputs, ops, i);
    PreimageParts(sg, ops, outs, ops[i], value, keyHash);
  }

  // The preimage up to and with the outpoint, and from the value on.
  function Head(sg: Signer, ops: seq<OutPoint>, o: OutPoint): seq<byte> {
    LE(2, 4) + sg.dsha256(WriteMany(PrevOut, ops)) + sg.dsha256(WriteMany(SequenceOf, ops)) + PrevOut(o)
  }

  function Tail(sg: Signer, outs: seq<TxOut>, value: i64): seq<byte> {
    LE(ToU64(value), 8) + LE(SEQUENCE, 4) + sg.dsha256(WriteMany(WriteOut, outs)) + LE(0, 4) + LE(1, 4)
  }

  lemma HeadParts(sg: Signer, ops: seq<OutPoint>, o: OutPoint)
    requires Proper(sg) && |o.hash| == 32
    ensures var p := Head(sg, ops, o);
            && |p| == 104 && p[..4] == LE(2, 4) && p[4..36] == sg.dsha256(WriteMany(PrevOut, ops))
            && p[36..68] == sg.dsha256(WriteMany(SequenceOf, ops)) && p[68..104] == PrevOut(o)
  {
    hide LE, WriteMany;
  }

  lemma TailParts(sg: Signer, outs: seq<TxOut>, value: i64)
    requires Proper(sg)
    ensures var p := Tail(sg, outs, value);
            && |p| == 52 && FromLE(p[..8]) == ToU64(value) && p[8..12] == LE(SEQUENCE, 4)
            && p[12..44] == sg.dsha256(WriteMany(WriteOut, outs)) && p[44..48] == LE(0, 4)
            && p[48..] == [0x01, 0x00, 0x00, 0x00]
  {
    hide LE, WriteMany, FromLE, ToU64;
    ValueReads(value);
    AllType();
    assert Tail(sg, outs, value)[..8] == LE(ToU64(value), 8);
  }

  lemma PreimageSplits(sg: Signer, ops: seq<OutPoint>, outs: seq<TxOut>, o: OutPoint, value: i64, keyHash: seq<byte>)
    ensures Preimage(sg, ops, outs, o, value, keyHash) ==
            Head(sg, ops, o) + ([0x19, 0x76, 0xa9, 0x14] + keyHash + [0x88, 0xac]) + Tail(sg, outs, value)
  {
    hide LE, WriteMany, PrevOut, ToU64;
  }

  lemma PreimageParts(sg: Signer, ops: seq<OutPoint>, outs: seq<TxOut>, o: OutPoint, value: i64, keyHash: seq<byte>)
    requires Proper(sg) && |keyHash| == 20 && |o.hash| == 32
    ensures var p := Preimage(sg, ops, outs, o, value, keyHash);
            && |p| == 182 && p[..4] == LE(2, 4) && p[4..36] == sg.dsha256(WriteMany(PrevOut, ops))
            && p[36..68] == sg.dsha256(WriteMany(SequenceOf, ops)) && p[68..104] == PrevOut(o)
            && p[104..108] == [0x19, 0x76, 0xa9, 0x14] && p[108..128] == keyHash && p[128..130] == [0x88, 0xac]
            && FromLE(p[130..138]) == ToU64(value) && p[138..142] == SequenceOf(o)
            && p[142..174] == sg.dsha256(WriteMany(WriteOut, outs)) && p[174..178] == LE(0, 4)
            && p[178..] == [0x01, 0x00, 0x00, 0x00]
  {
    hide LE, WriteMany, FromLE, Preimage, Head, Tail, PrevOut, ToU64, Proper;
    var p := Preimage(sg, ops, outs, o, value, keyHash);
    var head, tail := Head(sg, ops, o), Tail(sg, outs, value);
    HeadParts(sg, ops, o);
    TailParts(sg, outs, value);
    PreimageSplits(sg, ops, outs, o, value, keyHash);
    Thirds(head, [0x19, 0x76, 0xa9, 0x14] + keyHash + [0x88, 0xac], tail);
    SubSlice(p, 0, 104, 0, 4);
    SubSlice(p, 0, 104, 4, 36);
    SubSlice(p, 0, 104, 36, 68);
    SubSlice(p, 0, 104, 68, 104);
    SubSlice(p, 104, 130, 0, 4);
    SubSlice(p, 104, 130, 4, 24);
    SubSlice(p, 104, 130, 24, 26);
    SubSlice(p, 130, 182, 0, 8);
    SubSlice(p, 130, 182, 8, 12);
    SubSlice(p, 130, 182, 12, 44);
    SubSlice(p, 130, 182, 44, 48);
    SubSlice(p, 130, 182, 48, 52);
    assert p[178..182] == p[178..];
  }

  lemma Thirds(a: seq<byte>, b: seq<byte>, c: seq<byte>)
    ensures var p := a + b + c;
            p[0..|a|] == a && p[|a|..|a| + |b|] == b && p[|a| + |b|..|p|] == c
  {
  }

  lemma ValueReads(value: i64)
    ensures FromLE(LE(ToU64(value), 8)) == ToU64(value)
  {
    WidthPowers();
    hide Pow, LE, FromLE;
    FromLEWrites(ToU64(value), 8);
  }

  lemma AllType()
    ensures LE(1, 4) == [0x01, 0x00, 0x00, 0x00]
  {
  }

  // The witness list holds what was signed for each input.
  lemma {:induction false} SignedAt(sg: Signer, ops: seq<OutPoint>, outs: seq<TxOut>, ins: seq<TxInput>, k: nat, i: nat)
    requires Proper(sg) && |ops| == |ins| && i < k <= |ins| && SignUpTo(sg, ops, outs, ins, k).Ok?
    ensures SignInput(sg, ops, outs, ins[i], i) == Ok(SignUpTo(sg, ops, outs, ins, k).value[i])
    decreases k
  {
    hide SignInput, Proper;
    if i < k - 1 {
      SignedAt(sg, ops, outs, ins, k - 1, i);
    }
  }

  // The answer behind one witness.
  lemma Answer(sg: Signer, ops: seq<OutPoint>, outs: seq<TxOut>, input: TxInput, i: nat) returns (r: nat, s: nat)
    requires Proper(sg) && i < |ops| && SignInput(sg, ops, outs, input, i).Ok?
    ensures Hex.IsHex(input.script) && |input.script| == 44
    ensures var keyHash := Hex.FromHex(input.script)[2..];
            sg.sign(i, input.privKey, sg.dsha256(Preimage(sg, ops, outs, ops[i], input.value, keyHash))) == Some((r, s))
    ensures var w := SignInput(sg, ops, outs, input, i).value;
            && |w| == 2 && w[1] == input.pubKey && |w[0]| > 0
            && Der.Decode(w[0][..|w[0]| - 1]) == Some((r, if s <= Der.ORDER / 2 then s else Der.ORDER - s))
  {
    hide Der.Encode, Der.Decode, Preimage;
    var keyHash := ScriptHash(input.script).value;
    var answer := sg.sign(i, input.privKey, sg.dsha256(Preimage(sg, ops, outs, ops[i], input.value, keyHash))).value;
    r, s := answer.0, answer.1;
    Der.LowSRange(s);
    var sig := Der.Encode(r, Der.LowS(s));
    Der.DecodeEncode(r, Der.LowS(s));
    assert (sig + [0x01])[..|sig|] == sig;
  }

  lemma BuiltParses(sg: Signer, ins: seq<TxInput>, outs: seq<TxOut>)
    requires Proper(sg) && Build(sg, ins, outs).Ok? && |ins| < U64 && |outs| < U64
    requires forall j :: 0 <= j < |outs| ==> |outs[j].script| < U64
    ensures HasOutPoints(ins)
    ensures var ops := OutPoints(ins);
            var wits := SignUpTo(sg, ops, outs, ins, |ins|).value;
            && Build(sg, ins, outs).value.0 == Segwit(ops, outs, wits)
            && ParseSegwit(Segwit(ops, outs, wits)) == Some(Tx(2, Spends(ops), outs, wits, 0))
            && Encodable(ops, outs)
  {
    hide SignInput, P2wpkhWitness, Proper, Legacy, Segwit, ParseSegwit, SignUpTo, Hex.TxidHex;
    var ops := OutPoints(ins);
    var wits := SignUpTo(sg, ops, outs, ins, |ins|).value;
    SignedWitnesses(sg, ops, outs, ins, |ins|);
    forall j | 0 <= j < |wits|
      ensures EncodableWitness(wits[j])
    {
      SmallWitness(wits[j], ins[j].pubKey);
    }
    HashLengths(ins);
    SegwitParses(ops, outs, wits);
  }

  // For every input of a built transaction, the witness in the broadcast bytes holds the signer's
  // answer, with the smaller of the two equivalent S, to the digest a node computes from those bytes,
  // from the value of the coin and from the key hash in its script.
  lemma SignedDigest(sg: Signer, ins: seq<TxInput>, outs: seq<TxOut>, i: nat)
      returns (at: Sections, p: seq<byte>, tx: Tx, r: nat, s: nat)
    requires Proper(sg) && Build(sg, ins, outs).Ok? && |ins| < U64 && |outs| < U64 && i < |ins|
    requires forall j :: 0 <= j < |outs| ==> |outs[j].script| < U64
    ensures Hex.IsHex(ins[i].script) && |ins[i].script| == 44
    ensures var raw := Build(sg, ins, outs).value.0;
            && Locate(raw) == Some(at) && at.nIn == |ins|
            && Bip143(sg.dsha256, raw, at, i, ins[i].value, Hex.FromHex(ins[i].script)[2..], p)
            && sg.sign(i, ins[i].privKey, sg.dsha256(p)) == Some((r, s))
            && ParseSegwit(raw) == Some(tx) && |tx.witnesses| == |ins|
            && |tx.witnesses[i]| == 2 && tx.witnesses[i][1] == ins[i].pubKey
            && (var sig := tx.witnesses[i][0];
                |sig| > 0 && Der.Decode(sig[..|sig| - 1]) == Some((r, if s <= Der.ORDER / 2 then s else Der.ORDER - s)))
  {
    hide Bip143, Preimage, Locate, ParseSegwit, Places, SignUpTo, SignInput, Der.Decode, Proper, Segwit, Build;
    BuiltParses(sg, ins, outs);
    SignedAll(sg, ins, outs);
    var ops := OutPoints(ins);
    var wits := SignUpTo(sg, ops, outs, ins, |ins|).value;
    Located(ops, outs, wits);
    at := Places(ops, outs);
    tx := Tx(2, Spends(ops), outs, wits, 0);
    SignedAt(sg, ops, outs, ins, |ins|, i);
    r, s := Answer(sg, ops, outs, ins[i], i);
    var keyHash := Hex.FromHex(ins[i].script)[2..];
    p := Preimage(sg, ops, outs, ops[i], ins[i].value, keyHash);
    PreimageFits(sg, ops, outs, wits, i, ins[i].value, keyHash);
    PlacesCount(ops, outs);
  }

  lemma PlacesCount(ops: seq<OutPoint>, outs: seq<TxOut>)
    ensures Places(ops, outs).nIn == |ops|
  {
  }

  lemma SignedAll(sg: Signer, ins: seq<TxInput>, outs: seq<TxOut>)
    requires Proper(sg) && Build(sg, ins, outs).Ok?
    ensures HasOutPoints(ins) && SignUpTo(sg, OutPoints(ins), outs, ins, |ins|).Ok?
  {
    hide SignUpTo, Proper, Segwit, Legacy;
  }
}
