/**
  Building and signing a P2WPKH transaction: BuildAndSignTx and computeTxid of
  internal/bitcoin/tx.go. Double SHA-256 and ECDSA are parameters; the signer may answer
  differently for every input, as a randomised one does.
 */
module TxBuild {
  import opened Common
  import opened TxFormat
  import Hex
  import Der
  import CoinSelect

  datatype TxInput = TxInput(txid: string, vout: u32, value: i64, script: string, privKey: seq<byte>, pubKey: seq<byte>)

  datatype TxError = NoInput | NoOutput | BadTxid | BadScriptHex | NotP2wpkh | BadPubKey | SignFailed

  datatype Signer = Signer(
    dsha256: seq<byte> -> seq<byte>,
    sign: (nat, seq<byte>, seq<byte>) -> Option<(nat, nat)>)

  // Signatures are pairs of non-zero scalars and hashes are 32 bytes.
  ghost predicate Proper(sg: Signer) {
    && (forall x :: |sg.dsha256(x)| == 32)
    && (forall i, key, hash :: sg.sign(i, key, hash).Some? ==>
          var (r, s) := sg.sign(i, key, hash).value; 0 < r < Der.ORDER && 0 < s < Der.ORDER)
  }

  // ---- what is signed ----

  function PrevOut(o: OutPoint): seq<byte> {
    o.hash + LE(o.vout, 4)
  }

  function SequenceOf(o: OutPoint): seq<byte> {
    LE(SEQUENCE, 4)
  }

  // BIP 143's digest preimage for one input.
  function Preimage(sg: Signer, ops: seq<OutPoint>, outs: seq<TxOut>, o: OutPoint, value: i64, hash160: seq<byte>): seq<byte> {
    LE(2, 4) + sg.dsha256(WriteMany(PrevOut, ops)) + sg.dsha256(WriteMany(SequenceOf, ops)) + PrevOut(o)
    + [0x19, 0x76, 0xa9, 0x14] + hash160 + [0x88, 0xac]
    + LE(ToU64(value), 8) + LE(SEQUENCE, 4) + sg.dsha256(WriteMany(WriteOut, outs)) + LE(0, 4) + LE(1, 4)
  }

  function OutPointOf(input: TxInput): Option<OutPoint> {
    var hash := Hex.ReverseTxid(input.txid);
    if hash.None? then None else Some(OutPoint(hash.value, input.vout))
  }

  predicate HasOutPoints(ins: seq<TxInput>) {
    forall i :: 0 <= i < |ins| ==> OutPointOf(ins[i]).Some?
  }

  function OutPoints(ins: seq<TxInput>): (ops: seq<OutPoint>)
    requires HasOutPoints(ins)
    ensures |ops| == |ins| && forall i :: 0 <= i < |ins| ==> ops[i] == OutPointOf(ins[i]).value
  {
    seq(|ins|, i requires 0 <= i < |ins| => OutPointOf(ins[i]).value)
  }

  function ScriptHash(script: string): Result<seq<byte>, TxError> {
    if !Hex.IsHex(script) then Err(BadScriptHex) else
    var bytes := Hex.FromHex(script);
    if |bytes| != 22 || bytes[0] != 0x00 || bytes[1] != 0x14 then Err(NotP2wpkh) else Ok(bytes[2..])
  }

  // The witness of one input: a DER signature with its hash type, and the public key.
  function SignInput(sg: Signer, ops: seq<OutPoint>, outs: seq<TxOut>, input: TxInput, i: nat)
    : Result<seq<seq<byte>>, TxError>
    requires Proper(sg) && i < |ops|
  {
    var hash160 := ScriptHash(input.script);
    if hash160.Err? then Err(hash160.error) else
    var sigHash := sg.dsha256(Preimage(sg, ops, outs, ops[i], input.value, hash160.value));
    if |input.pubKey| != 33 || (input.pubKey[0] != 0x02 && input.pubKey[0] != 0x03) then Err(BadPubKey) else
    var sig := sg.sign(i, input.privKey, sigHash);
    if sig.None? then Err(SignFailed) else
    var (r, s) := sig.value;
    Der.LowSRange(s);
    Ok([Der.Encode(r, Der.LowS(s)) + [0x01], input.pubKey])
  }

  // The witnesses of the first k inputs, or the first error.
  function SignUpTo(sg: Signer, ops: seq<OutPoint>, outs: seq<TxOut>, ins: seq<TxInput>, k: nat)
    : (r: Result<seq<seq<seq<byte>>>, TxError>)
    requires Proper(sg) && |ops| == |ins| && k <= |ins|
    ensures r.Ok? ==> |r.value| == k
  {
    if k == 0 then Ok([]) else
    var before := SignUpTo(sg, ops, outs, ins, k - 1);
    if before.Err? then before else
    var w := SignInput(sg, ops, outs, ins[k - 1], k - 1);
    if w.Err? then Err(w.error) else Ok(before.value + [w.value])
  }

  // The raw bytes and the transaction id.
  function Build(sg: Signer, ins: seq<TxInput>, outs: seq<TxOut>): Result<(seq<byte>, string), TxError>
    requires Proper(sg)
  {
    if ins == [] then Err(NoInput)
    else if outs == [] then Err(NoOutput)
    else if !HasOutPoints(ins) then Err(BadTxid)
    else
      var ops := OutPoints(ins);
      var wits := SignUpTo(sg, ops, outs, ins, |ins|);
      if wits.Err? then Err(wits.error)
      else Ok((Segwit(ops, outs, wits.value), Hex.TxidHex(sg.dsha256(Legacy(ops, outs)))))
  }

  // ---- the loops of the source ----

  method CollectOutPoints(ins: seq<TxInput>) returns (ops: Option<seq<OutPoint>>, prevouts: seq<byte>)
    ensures ops == if HasOutPoints(ins) then Some(OutPoints(ins)) else None
    ensures ops.Some? ==> prevouts == WriteMany(PrevOut, ops.value)
  {
    hide Hex.ReverseTxid, LE;
    prevouts := [];
    var done: seq<OutPoint> := [];
    for i := 0 to |ins|
      invariant |done| == i && forall k :: 0 <= k < i ==> OutPointOf(ins[k]) == Some(done[k])
      invariant prevouts == WriteMany(PrevOut, done)
    {
      var hash := Hex.ComputeReverseTxid(ins[i].txid);
      if hash.None? {
        assert OutPointOf(ins[i]).None?;
        return None, prevouts;
      }
      var o := OutPoint(hash.value, ins[i].vout);
      WriteManyAppend(PrevOut, done, o);
      prevouts := prevouts + o.hash + LE(o.vout, 4);
      done := done + [o];
    }
    assert HasOutPoints(ins);
    assert done == OutPoints(ins);
    ops := Some(done);
  }

  method WriteEach<T>(write: T -> seq<byte>, xs: seq<T>) returns (buf: seq<byte>)
    ensures buf == WriteMany(write, xs)
  {
    buf := [];
    for i := 0 to |xs|
      invariant buf == WriteMany(write, xs[..i])
    {
      assert xs[..i + 1] == xs[..i] + [xs[i]];
      WriteManyAppend(write, xs[..i], xs[i]);
      buf := buf + write(xs[i]);
    }
    assert xs[..|xs|] == xs;
  }

  method SignAll(sg: Signer, ops: seq<OutPoint>, outs: seq<TxOut>, ins: seq<TxInput>)
    returns (r: Result<seq<seq<seq<byte>>>, TxError>)
    requires Proper(sg) && |ops| == |ins|
    ensures r == SignUpTo(sg, ops, outs, ins, |ins|)
  {
    hide SignInput, Proper;
    var witnesses: seq<seq<seq<byte>>> := [];
    for i := 0 to |ins|
      invariant SignUpTo(sg, ops, outs, ins, i) == Ok(witnesses)
    {
      var w := SignInput(sg, ops, outs, ins[i], i);
      if w.Err? {
        StuckOnError(sg, ops, outs, ins, i + 1, |ins|);
        return Err(w.error);
      }
      witnesses := witnesses + [w.value];
    }
    return Ok(witnesses);
  }

  lemma {:induction false} StuckOnError(sg: Signer, ops: seq<OutPoint>, outs: seq<TxOut>, ins: seq<TxInput>, k: nat, n: nat)
    requires Proper(sg) && |ops| == |ins| && k <= n <= |ins| && SignUpTo(sg, ops, outs, ins, k).Err?
    ensures SignUpTo(sg, ops, outs, ins, n) == SignUpTo(sg, ops, outs, ins, k)
    decreases n
  {
    hide SignInput, Proper;
    if k < n {
      StuckOnError(sg, ops, outs, ins, k, n - 1);
    }
  }

  method ComputeTxid(sg: Signer, ops: seq<OutPoint>, outs: seq<TxOut>) returns (txid: string)
    ensures txid == Hex.TxidHex(sg.dsha256(Legacy(ops, outs)))
  {
    hide LE, Varint, WriteIn, WriteOut, WriteMany, Hex.TxidHex;
    var buf := LE(2, 4) + Varint(|ops|);
    var inputs := WriteEach(WriteIn, ops);
    buf := buf + inputs + Varint(|outs|);
    var outputs := WriteEach(WriteOut, outs);
    buf := buf + outputs + LE(0, 4);
    assert buf == Legacy(ops, outs);
    txid := Hex.TxidHex(sg.dsha256(buf));
  }

  method BuildAndSign(sg: Signer, ins: seq<TxInput>, outs: seq<TxOut>) returns (r: Result<(seq<byte>, string), TxError>)
    requires Proper(sg)
    ensures r == Build(sg, ins, outs)
  {
    hide LE, Varint, WriteIn, WriteOut, WriteWitness, WriteMany, Hex.TxidHex, SignUpTo, Proper, OutPoints, HasOutPoints;
    if |ins| == 0 {
      return Err(NoInput);
    }
    if |outs| == 0 {
      return Err(NoOutput);
    }
    var ops, _ := CollectOutPoints(ins);
    if ops.None? {
      return Err(BadTxid);
    }
    var wits := SignAll(sg, ops.value, outs, ins);
    if wits.Err? {
      return Err(wits.error);
    }
    var raw := LE(2, 4) + [0x00] + [0x01] + Varint(|ops.value|);
    var inputs := WriteEach(WriteIn, ops.value);
    raw := raw + inputs + Varint(|outs|);
    var outputs := WriteEach(WriteOut, outs);
    raw := raw + outputs;
    var witnesses := WriteEach(WriteWitness, wits.value);
    raw := raw + witnesses + LE(0, 4);
    assert raw == Segwit(ops.value, outs, wits.value);
    var txid := ComputeTxid(sg, ops.value, outs);
    r := Ok((raw, txid));
  }

  // What an input must be: 64 hexadecimal digits of id, a P2WPKH script, a compressed public key.
  predicate InputGood(input: TxInput) {
    |input.txid| == 64 && Hex.IsHex(input.txid) && Signable(input)
  }

  // With a signer that always answers, a transaction is built exactly if it has inputs and outputs and
  // every input is good.
  lemma BuiltExactly(sg: Signer, ins: seq<TxInput>, outs: seq<TxOut>)
    requires Proper(sg) && forall i, key, hash :: sg.sign(i, key, hash).Some?
    ensures Build(sg, ins, outs).Ok? <==> ins != [] && outs != [] && forall i :: 0 <= i < |ins| ==> InputGood(ins[i])
  {
    hide Proper, Segwit, Legacy, Hex.TxidHex, SignUpTo, InputGood;
    if HasOutPoints(ins) {
      SignedExactly(sg, OutPoints(ins), outs, ins, |ins|);
      forall i | 0 <= i < |ins|
        ensures InputGood(ins[i]) <==> Signable(ins[i])
      {
        assert OutPointOf(ins[i]).Some?;
        GoodParts(ins[i]);
      }
    } else {
      var i :| 0 <= i < |ins| && OutPointOf(ins[i]).None?;
      GoodParts(ins[i]);
      assert !InputGood(ins[i]);
    }
  }

  predicate Signable(input: TxInput) {
    && |input.script| == 44 && Hex.IsHex(input.script)
    && Hex.FromHex(input.script)[0] == 0 && Hex.FromHex(input.script)[1] == 20
    && |input.pubKey| == 33 && 2 <= input.pubKey[0] <= 3
  }

  lemma GoodParts(input: TxInput)
    ensures InputGood(input) <==> OutPointOf(input).Some? && Signable(input)
  {
    hide Hex.FromHex, Hex.IsHex;
  }

  lemma {:induction false} SignedExactly(sg: Signer, ops: seq<OutPoint>, outs: seq<TxOut>, ins: seq<TxInput>, k: nat)
    requires Proper(sg) && |ops| == |ins| && k <= |ins| && forall i, key, hash :: sg.sign(i, key, hash).Some?
    ensures SignUpTo(sg, ops, outs, ins, k).Ok? <==> forall i :: 0 <= i < k ==> Signable(ins[i])
    decreases k
  {
    hide SignInput, Proper, Signable;
    if k > 0 {
      SignedExactly(sg, ops, outs, ins, k - 1);
      SignableExactly(sg, ops, outs, ins[k - 1], k - 1);
    }
  }

  lemma SignableExactly(sg: Signer, ops: seq<OutPoint>, outs: seq<TxOut>, input: TxInput, i: nat)
    requires Proper(sg) && i < |ops| && forall i, key, hash :: sg.sign(i, key, hash).Some?
    ensures SignInput(sg, ops, outs, input, i).Ok? <==> Signable(input)
  {
    hide Preimage, Hex.IsHex, Der.Encode, Der.LowS;
    if Hex.IsHex(input.script) {
      HexEvenLength(input.script);
    }
  }

  lemma HexEvenLength(s: string)
    requires Hex.IsHex(s)
    ensures |s| % 2 == 0 && |Hex.FromHex(s)| == |s| / 2
  {
  }

  // ---- what a built transaction is ----

  // A P2WPKH witness: a signature that reads back with low S and SIGHASH_ALL, and the key.
  ghost predicate P2wpkhWitness(w: seq<seq<byte>>, pubKey: seq<byte>) {
    && |w| == 2 && w[1] == pubKey && |pubKey| == 33
    && 1 <= |w[0]| <= 72 && w[0][|w[0]| - 1] == 0x01
    && Der.Decode(w[0][..|w[0]| - 1]).Some?
    && 0 < Der.Decode(w[0][..|w[0]| - 1]).value.1 <= Der.ORDER / 2
  }

  lemma SignedWitness(sg: Signer, ops: seq<OutPoint>, outs: seq<TxOut>, input: TxInput, i: nat)
    requires Proper(sg) && i < |ops| && SignInput(sg, ops, outs, input, i).Ok?
    ensures P2wpkhWitness(SignInput(sg, ops, outs, input, i).value, input.pubKey)
  {
    hide Der.Encode, Der.Decode, Der.LowS, Preimage, ScriptHash;
    var hash160 := ScriptHash(input.script).value;
    var (r, s) := sg.sign(i, input.privKey, sg.dsha256(Preimage(sg, ops, outs, ops[i], input.value, hash160))).value;
    Der.LowSRange(s);
    var sig := Der.Encode(r, Der.LowS(s));
    Der.EncodeLength(r, Der.LowS(s));
    Der.DecodeEncode(r, Der.LowS(s));
    assert (sig + [0x01])[..|sig|] == sig;
  }

  lemma {:induction false} SignedWitnesses(sg: Signer, ops: seq<OutPoint>, outs: seq<TxOut>, ins: seq<TxInput>, k: nat)
    requires Proper(sg) && |ops| == |ins| && k <= |ins| && SignUpTo(sg, ops, outs, ins, k).Ok?
    ensures forall i :: 0 <= i < k ==> P2wpkhWitness(SignUpTo(sg, ops, outs, ins, k).value[i], ins[i].pubKey)
  {
    hide SignInput, P2wpkhWitness, Proper;
    if k > 0 {
      SignedWitnesses(sg, ops, outs, ins, k - 1);
      SignedWitness(sg, ops, outs, ins[k - 1], k - 1);
    }
  }

  // A built transaction parses back to the requested outpoints and outputs with one good witness
  // per input, and its id is the hash of its bytes without marker, flag and witnesses.
  lemma BuiltTransaction(sg: Signer, ins: seq<TxInput>, outs: seq<TxOut>) returns (tx: Tx, cut: nat)
    requires Proper(sg) && Build(sg, ins, outs).Ok? && |ins| < U64 && |outs| < U64
    requires forall i :: 0 <= i < |outs| ==> |outs[i].script| < U64
    ensures HasOutPoints(ins)
    ensures var (raw, txid) := Build(sg, ins, outs).value;
            && ParseSegwit(raw) == Some(tx) && tx.version == 2 && tx.lockTime == 0
            && tx.ins == Spends(OutPoints(ins)) && tx.outs == outs && |tx.witnesses| == |ins|
            && (forall i :: 0 <= i < |ins| ==> P2wpkhWitness(tx.witnesses[i], ins[i].pubKey))
            && 6 <= cut <= |raw| - 4
            && txid == Hex.TxidHex(sg.dsha256(raw[..4] + raw[6..cut] + raw[|raw| - 4..]))
  {
    hide SignInput, P2wpkhWitness, Proper, Legacy, Segwit, ParseSegwit, SignUpTo, Hex.TxidHex, Witnesses;
    var ops := OutPoints(ins);
    var wits := SignUpTo(sg, ops, outs, ins, |ins|).value;
    SignedWitnesses(sg, ops, outs, ins, |ins|);
    forall i | 0 <= i < |wits|
      ensures EncodableWitness(wits[i])
    {
      SmallWitness(wits[i], ins[i].pubKey);
    }
    HashLengths(ins);
    SegwitParses(ops, outs, wits);
    StripWitness(ops, outs, wits);
    tx := Tx(2, Spends(ops), outs, wits, 0);
    cut := |Segwit(ops, outs, wits)| - 4 - |Witnesses(wits)|;
  }

  lemma HashLengths(ins: seq<TxInput>)
    requires HasOutPoints(ins)
    ensures forall i :: 0 <= i < |ins| ==> |OutPoints(ins)[i].hash| == 32
  {
  }

  lemma SmallWitness(w: seq<seq<byte>>, pubKey: seq<byte>)
    requires P2wpkhWitness(w, pubKey)
    ensures EncodableWitness(w)
  {
  }

  // ---- size ----

  // BIP 141: three times the stripped size plus the total size, in quarters rounded up.
  function VSize(ops: seq<OutPoint>, outs: seq<TxOut>, wits: seq<seq<seq<byte>>>): int {
    (3 * |Legacy(ops, outs)| + |Segwit(ops, outs, wits)| + 3) / 4
  }

  ghost predicate AllP2wpkh(outs: seq<TxOut>) {
    forall i :: 0 <= i < |outs| ==> |outs[i].script| == 22
  }

  ghost predicate WitnessSizes(wits: seq<seq<seq<byte>>>, sigSize: nat) {
    forall i :: 0 <= i < |wits| ==> |wits[i]| == 2 && |wits[i][0]| <= sigSize && |wits[i][1]| == 33
  }

  function CountSize(n: nat): nat {
    |Varint(n)|
  }

  lemma {:induction false} WriteManyLength<T>(write: T -> seq<byte>, xs: seq<T>, size: nat)
    requires forall i :: 0 <= i < |xs| ==> |write(xs[i])| == size
    ensures |WriteMany(write, xs)| == size * |xs|
    decreases xs
  {
    if xs != [] {
      WriteManyLength(write, xs[1..], size);
      assert size * |xs| == size + size * (|xs| - 1);
    }
  }

  lemma {:induction false} WriteManyAtMost<T>(write: T -> seq<byte>, xs: seq<T>, size: nat)
    requires forall i :: 0 <= i < |xs| ==> |write(xs[i])| <= size
    ensures |WriteMany(write, xs)| <= size * |xs|
    decreases xs
  {
    if xs != [] {
      WriteManyAtMost(write, xs[1..], size);
      assert size * |xs| == size + size * (|xs| - 1);
    }
  }

  lemma WitnessLength(w: seq<seq<byte>>)
    requires |w| == 2 && |w[0]| <= 72 && |w[1]| == 33
    ensures |WriteWitness(w)| == 36 + |w[0]|
  {
    assert WriteMany(WriteItem, w) == WriteItem(w[0]) + (WriteItem(w[1]) + []) by {
      assert w[1..] == [w[1]] && w[1..][1..] == [];
      assert WriteMany(WriteItem, w[1..]) == WriteItem(w[1]) + WriteMany(WriteItem, []);
    }
  }

  lemma BodyLength(ops: seq<OutPoint>, outs: seq<TxOut>)
    requires (forall i :: 0 <= i < |ops| ==> |ops[i].hash| == 32) && AllP2wpkh(outs)
    ensures |Body(ops, outs)| == CountSize(|ops|) + 41 * |ops| + CountSize(|outs|) + 31 * |outs|
  {
    hide Varint, WriteMany;
    forall i | 0 <= i < |outs|
      ensures |WriteOut(outs[i])| == 31
    {
      ScriptPrefix();
    }
    WriteManyLength(WriteIn, ops, 41);
    WriteManyLength(WriteOut, outs, 31);
  }

  lemma ScriptPrefix()
    ensures |Varint(22)| == 1
  {
  }

  lemma TransactionLengths(ops: seq<OutPoint>, outs: seq<TxOut>, wits: seq<seq<seq<byte>>>)
    ensures |Legacy(ops, outs)| == 8 + |Body(ops, outs)|
    ensures |Segwit(ops, outs, wits)| == |Legacy(ops, outs)| + 2 + |Witnesses(wits)|
  {
  }

  // The count bytes that the estimate takes to be one each.
  function ExtraCountBytes(nIn: nat, nOut: nat): int {
    CountSize(nIn) + CountSize(nOut) - 2
  }

  lemma CountBytes(n: nat)
    ensures CountSize(n) >= 1 && (CountSize(n) == 1 <==> n <= 252)
  {
  }

  // The serialised transaction never exceeds the estimate by more than the extra count bytes, and
  // reaches that bound when every signature has 72 bytes.
  lemma SizeBound(ops: seq<OutPoint>, outs: seq<TxOut>, wits: seq<seq<seq<byte>>>)
    requires (forall i :: 0 <= i < |ops| ==> |ops[i].hash| == 32) && AllP2wpkh(outs)
    requires |wits| == |ops| && WitnessSizes(wits, 72)
    ensures VSize(ops, outs, wits) <= CoinSelect.EstimateVSize(|ops|, |outs|) + ExtraCountBytes(|ops|, |outs|)
    ensures (forall i :: 0 <= i < |wits| ==> |wits[i][0]| == 72) ==>
              VSize(ops, outs, wits) == CoinSelect.EstimateVSize(|ops|, |outs|) + ExtraCountBytes(|ops|, |outs|)
  {
    hide Varint, WriteMany, Body, Legacy, Segwit, WriteWitness;
    forall i | 0 <= i < |wits|
      ensures |WriteWitness(wits[i])| == 36 + |wits[i][0]| <= 108
    {
      WitnessLength(wits[i]);
    }
    BodyLength(ops, outs);
    TransactionLengths(ops, outs, wits);
    WriteManyAtMost(WriteWitness, wits, 108);
    if forall i :: 0 <= i < |wits| ==> |wits[i][0]| == 72 {
      WriteManyLength(WriteWitness, wits, 108);
    }
    assert |Witnesses(wits)| <= 108 * |ops|;
    Quarters(|ops|, |outs|, |Legacy(ops, outs)|, |Witnesses(wits)|, ExtraCountBytes(|ops|, |outs|));
  }

  lemma Quarters(nIn: nat, nOut: nat, legacy: int, stack: int, extra: int)
    requires legacy == 10 + extra + 41 * nIn + 31 * nOut && stack <= 108 * nIn
    ensures (3 * legacy + (legacy + 2 + stack) + 3) / 4 <= CoinSelect.EstimateVSize(nIn, nOut) + extra
    ensures stack == 108 * nIn ==>
              (3 * legacy + (legacy + 2 + stack) + 3) / 4 == CoinSelect.EstimateVSize(nIn, nOut) + extra
  {
    var w := (10 + nIn * 41 + nOut * 31) * 4 + 2;
    assert 3 * legacy + (legacy + 2 + stack) == w + 4 * extra + stack;
    assert (w + 4 * extra + stack + 3) / 4 == (w + stack + 3) / 4 + extra;
  }

  // The estimate bounds every transaction with the given counts exactly when both counts are at
  // most 252.
  ghost predicate EstimateSound(nIn: nat, nOut: nat) {
    forall ops: seq<OutPoint>, outs: seq<TxOut>, wits: seq<seq<seq<byte>>> ::
      (|ops| == nIn) && |outs| == nOut && |wits| == nIn && (forall i :: 0 <= i < |ops| ==> |ops[i].hash| == 32)
      && AllP2wpkh(outs) && WitnessSizes(wits, 72)
      ==> VSize(ops, outs, wits) <= CoinSelect.EstimateVSize(nIn, nOut)
  }

  lemma EstimateSoundIff(nIn: nat, nOut: nat)
    ensures EstimateSound(nIn, nOut) <==> nIn <= 252 && nOut <= 252
  {
    hide CountSize, VSize, CoinSelect.EstimateVSize;
    CountBytes(nIn);
    CountBytes(nOut);
    if nIn <= 252 && nOut <= 252 {
      forall ops: seq<OutPoint>, outs: seq<TxOut>, wits: seq<seq<seq<byte>>> | (|ops| == nIn) && |outs| == nOut && |wits| == nIn
             && (forall i :: 0 <= i < |ops| ==> |ops[i].hash| == 32) && AllP2wpkh(outs) && WitnessSizes(wits, 72)
        ensures VSize(ops, outs, wits) <= CoinSelect.EstimateVSize(nIn, nOut)
      {
        SizeBound(ops, outs, wits);
      }
    } else {
      var ops := Repeat(OutPoint(Repeat(0, 32), 0), nIn);
      var outs := Repeat(TxOut(0, Repeat(0, 22)), nOut);
      var wits := Repeat([Repeat(0, 72), Repeat(0, 33)], nIn);
      SizeBound(ops, outs, wits);
      assert AllP2wpkh(outs) && WitnessSizes(wits, 72);
      assert VSize(ops, outs, wits) > CoinSelect.EstimateVSize(nIn, nOut);
    }
  }

  // The consistency witness of Proper: some signer meets the assumptions made above.
  lemma ProperExists()
    ensures Proper(Signer((x: seq<byte>) => Repeat(0, 32), (i: nat, h: seq<byte>, k: seq<byte>) => Some((1, 1))))
  {
  }
}
