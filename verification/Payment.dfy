/**
  What Service.Send (internal/bitcoin/service.go) pays: selection, outputs and the built
  transaction put together.
 */
module Payment {
  import opened Common
  import opened TxFormat
  import opened Text
  import Bech32
  import Hex
  import ExtendedKeys
  import CoinSelect
  import TxBuild

  predicate SpendOf(u: CoinSelect.Utxo, i: TxBuild.TxInput) {
    i.txid == u.txid && i.vout == u.vout && i.value == u.valueSats
  }

  // buildTxInputs: one input per selected coin, in order.
  ghost predicate InputsFor(chosen: seq<CoinSelect.Utxo>, ins: seq<TxBuild.TxInput>) {
    |ins| == |chosen| && forall i :: 0 <= i < |ins| ==> SpendOf(chosen[i], ins[i])
  }

  // The destination, and a change output when there is change.
  function Outputs(amount: i64, destScript: seq<byte>, change: i64, changeScript: seq<byte>): seq<TxOut> {
    if change > 0 then [TxOut(amount, destScript), TxOut(change, changeScript)] else [TxOut(amount, destScript)]
  }

  function Paid(outs: seq<TxOut>): int {
    if outs == [] then 0 else outs[0].value + Paid(outs[1..])
  }

  // What a list of outputs pays to one script.
  function PaidTo(outs: seq<TxOut>, script: seq<byte>): int {
    if outs == [] then 0 else (if outs[0].script == script then outs[0].value else 0) + PaidTo(outs[1..], script)
  }

  function Spent(ins: seq<TxBuild.TxInput>): int {
    if ins == [] then 0 else ins[0].value + Spent(ins[1..])
  }

  lemma {:induction false} SpentIsTotal(chosen: seq<CoinSelect.Utxo>, ins: seq<TxBuild.TxInput>)
    requires InputsFor(chosen, ins)
    ensures Spent(ins) == CoinSelect.Total(chosen)
    decreases ins
  {
    if ins != [] {
      SpentIsTotal(chosen[1..], ins[1..]);
    }
  }

  // The witnesses of the transaction Build returns.
  ghost function BuiltWitnesses(sg: TxBuild.Signer, ins: seq<TxBuild.TxInput>, outs: seq<TxOut>): seq<seq<seq<byte>>>
    requires TxBuild.Proper(sg) && TxBuild.Build(sg, ins, outs).Ok?
  {
    TxBuild.SignUpTo(sg, TxBuild.OutPoints(ins), outs, ins, |ins|).value
  }

  // The virtual size of the transaction Build returns.
  ghost function BuiltVSize(sg: TxBuild.Signer, ins: seq<TxBuild.TxInput>, outs: seq<TxOut>): int
    requires TxBuild.Proper(sg) && TxBuild.Build(sg, ins, outs).Ok?
  {
    TxBuild.VSize(TxBuild.OutPoints(ins), outs, BuiltWitnesses(sg, ins, outs))
  }

  // The size of whatever is built is at most the estimate and the count bytes it leaves out, which are
  // none up to 252 inputs and outputs.
  lemma BuiltSize(sg: TxBuild.Signer, ins: seq<TxBuild.TxInput>, outs: seq<TxOut>)
    requires TxBuild.Proper(sg) && TxBuild.Build(sg, ins, outs).Ok? && TxBuild.AllP2wpkh(outs)
    ensures BuiltVSize(sg, ins, outs) <= CoinSelect.EstimateVSize(|ins|, |outs|) + TxBuild.ExtraCountBytes(|ins|, |outs|)
    ensures TxBuild.ExtraCountBytes(|ins|, |outs|) >= 0
    ensures TxBuild.ExtraCountBytes(|ins|, |outs|) == 0 <==> |ins| <= 252 && |outs| <= 252
  {
    hide TxBuild.VSize, TxBuild.SignUpTo, TxBuild.Proper, TxBuild.CountSize, CoinSelect.EstimateVSize;
    var ops, wits := TxBuild.OutPoints(ins), BuiltWitnesses(sg, ins, outs);
    TxBuild.SignedWitnesses(sg, ops, outs, ins, |ins|);
    TxBuild.HashLengths(ins);
    assert TxBuild.WitnessSizes(wits, 72) by {
      forall i | 0 <= i < |wits|
        ensures |wits[i]| == 2 && |wits[i][0]| <= 72 && |wits[i][1]| == 33
      {
        assert TxBuild.P2wpkhWitness(wits[i], ins[i].pubKey);
      }
    }
    TxBuild.SizeBound(ops, outs, wits);
    TxBuild.CountBytes(|ins|);
    TxBuild.CountBytes(|outs|);
  }

  // The outputs total the inputs minus the recorded fee, and that fee pays the requested rate for
  // the transaction actually serialised, less the count bytes the estimate leaves out beyond 252
  // inputs, except in the branch that keeps a change output while charging for one output.
  lemma SendPays(sg: TxBuild.Signer, sel: CoinSelect.Selection, utxos: seq<CoinSelect.Utxo>, amount: i64, rate: int,
                 dust: int, ins: seq<TxBuild.TxInput>, change: i64, destScript: seq<byte>, changeScript: seq<byte>)
    requires rate >= 0 && CoinSelect.Accounted(sel, utxos, amount, rate, dust) && change == sel.change
    requires InputsFor(sel.chosen, ins) && |destScript| == 22 && |changeScript| == 22
    requires TxBuild.Proper(sg) && TxBuild.Build(sg, ins, Outputs(amount, destScript, change, changeScript)).Ok?
    ensures |ins| < U64 ==>
              var tx := ParseSegwit(TxBuild.Build(sg, ins, Outputs(amount, destScript, change, changeScript)).value.0);
              && tx.Some? && SpendsCoins(tx.value, sel.chosen) && PaysTo(tx.value, amount, destScript, sel.change, Some(changeScript))
              && Paid(tx.value.outs) == Spent(ins) - sel.fee
    ensures var outs := Outputs(amount, destScript, change, changeScript);
            && Paid(outs) == Spent(ins) - sel.fee
            && (TxBuild.ExtraCountBytes(|ins|, |outs|) == 0 <==> |ins| <= 252)
            && (rate == 0 || !CoinSelect.UnderpaidChange(|ins|, Spent(ins), amount, rate, dust)
                ==> rate * (BuiltVSize(sg, ins, outs) - TxBuild.ExtraCountBytes(|ins|, |outs|)) <= sel.fee)
            && rate * (BuiltVSize(sg, ins, outs) - TxBuild.ExtraCountBytes(|ins|, |outs|) - 31) <= sel.fee
  {
    hide ParseSegwit, PaysTo, SpendsCoins, TxBuild.Proper, TxBuild.Build, TxBuild.ExtraCountBytes, BuiltVSize, Paid, Spent, Outputs, CoinSelect.EstimateVSize, CoinSelect.Fee,
         CoinSelect.Total, CoinSelect.UnderpaidChange;
    var outs := Outputs(amount, destScript, change, changeScript);
    OutputsPay(amount, destScript, change, changeScript);
    SpentIsTotal(sel.chosen, ins);
    BuiltSize(sg, ins, outs);
    CoinSelect.OutputCost(|ins|, rate);
    if |ins| < U64 {
      OutputsParsed(sg, ins, amount, destScript, change, changeScript);
      InputsParsed(sg, sel.chosen, ins, outs);
    }
    RateTimes(BuiltVSize(sg, ins, outs) - TxBuild.ExtraCountBytes(|ins|, |outs|), |ins|, |outs|, rate);
  }

  // The transaction spends exactly the chosen coins, in order.
  ghost predicate SpendsCoins(tx: Tx, chosen: seq<CoinSelect.Utxo>) {
    && tx.version == 2 && tx.lockTime == 0
    && |tx.ins| == |chosen| && forall i :: 0 <= i < |chosen| ==>
      && Hex.ReverseTxid(chosen[i].txid) == Some(tx.ins[i].prev.hash) && tx.ins[i].prev.vout == chosen[i].vout
      && tx.ins[i].scriptSig == [] && tx.ins[i].sequence == 0xffff_ffff
  }

  lemma InputsParsed(sg: TxBuild.Signer, chosen: seq<CoinSelect.Utxo>, ins: seq<TxBuild.TxInput>, outs: seq<TxOut>)
    requires InputsFor(chosen, ins) && |ins| < U64 && |outs| < U64 && TxBuild.AllP2wpkh(outs)
    requires TxBuild.Proper(sg) && TxBuild.Build(sg, ins, outs).Ok?
    ensures var tx := ParseSegwit(TxBuild.Build(sg, ins, outs).value.0); tx.Some? && SpendsCoins(tx.value, chosen)
  {
    hide TxBuild.Proper, TxBuild.Build, ParseSegwit, Hex.ReverseTxid;
    var tx, _ := TxBuild.BuiltTransaction(sg, ins, outs);
    var ops := TxBuild.OutPoints(ins);
    forall i | 0 <= i < |chosen|
      ensures Hex.ReverseTxid(chosen[i].txid) == Some(tx.ins[i].prev.hash) && tx.ins[i].prev.vout == chosen[i].vout
              && tx.ins[i].scriptSig == [] && tx.ins[i].sequence == 0xffff_ffff
    {
      assert SpendOf(chosen[i], ins[i]);
      assert ops[i] == TxBuild.OutPointOf(ins[i]).value && tx.ins[i] == Spend(ops[i]);
    }
  }

  // ---- buildTxInputs ----

  // A selected coin with the columns of its row that signing needs.
  datatype WalletCoin = WalletCoin(utxo: CoinSelect.Utxo, user: string, addressId: string, script: string)

  function Coins(coins: seq<WalletCoin>): (us: seq<CoinSelect.Utxo>)
    ensures |us| == |coins| && forall i :: 0 <= i < |us| ==> us[i] == coins[i].utxo
  {
    seq(|coins|, i requires 0 <= i < |coins| => coins[i].utxo)
  }

  // The first coin received at the same address: its user decides which key signs.
  function Representative(coins: seq<WalletCoin>, i: nat): (j: nat)
    requires i < |coins|
    ensures j <= i && coins[j].addressId == coins[i].addressId
    ensures forall k :: 0 <= k < j ==> coins[k].addressId != coins[i].addressId
  {
    FirstAt(coins, coins[i].addressId, 0)
  }

  function FirstAt(coins: seq<WalletCoin>, addressId: string, from: nat): (j: nat)
    requires exists i :: from <= i < |coins| && coins[i].addressId == addressId
    ensures from <= j < |coins| && coins[j].addressId == addressId
    ensures forall k :: from <= k < j ==> coins[k].addressId != addressId
    decreases |coins| - from
  {
    if coins[from].addressId == addressId then from else FirstAt(coins, addressId, from + 1)
  }

  type key_pair = (seq<byte>, seq<byte>)

  // The derivation index for coin i: that of the user's first active address, which need not be the
  // address the coin was received at.
  function IndexFor(coins: seq<WalletCoin>, i: nat, userIndex: string -> Option<nat>): Option<nat>
    requires i < |coins|
  {
    userIndex(coins[Representative(coins, i)].user)
  }

  function KeyFor(coins: seq<WalletCoin>, i: nat, userIndex: string -> Option<nat>, derive: nat -> Option<key_pair>): Option<key_pair>
    requires i < |coins|
  {
    var index := IndexFor(coins, i, userIndex);
    if index.None? then None else derive(index.value)
  }

  // The cache knows the addresses of the first n coins, and their indices.
  ghost predicate Cached(coins: seq<WalletCoin>, n: nat, cache: map<string, nat>, userIndex: string -> Option<nat>)
    requires n <= |coins|
  {
    && (forall k :: 0 <= k < n ==> coins[k].addressId in cache && IndexFor(coins, k, userIndex) == Some(cache[coins[k].addressId]))
    && forall a :: a in cache ==> exists k :: 0 <= k < n && coins[k].addressId == a
  }

  lemma SameRepresentative(coins: seq<WalletCoin>, i: nat, j: nat)
    requires i < |coins| && j < |coins| && coins[i].addressId == coins[j].addressId
    ensures Representative(coins, i) == Representative(coins, j)
  {
  }

  lemma CacheHit(coins: seq<WalletCoin>, n: nat, cache: map<string, nat>, userIndex: string -> Option<nat>)
    requires n < |coins| && Cached(coins, n, cache, userIndex) && coins[n].addressId in cache
    ensures Cached(coins, n + 1, cache, userIndex) && IndexFor(coins, n, userIndex) == Some(cache[coins[n].addressId])
  {
    var k :| 0 <= k < n && coins[k].addressId == coins[n].addressId;
    SameRepresentative(coins, k, n);
    hide Representative;
  }

  lemma CacheMiss(coins: seq<WalletCoin>, n: nat, cache: map<string, nat>, userIndex: string -> Option<nat>)
    requires n < |coins| && Cached(coins, n, cache, userIndex) && coins[n].addressId !in cache
    ensures IndexFor(coins, n, userIndex) == userIndex(coins[n].user)
    ensures userIndex(coins[n].user).Some? ==>
              Cached(coins, n + 1, cache[coins[n].addressId := userIndex(coins[n].user).value], userIndex)
  {
    assert Representative(coins, n) == n;
    hide Representative;
    if userIndex(coins[n].user).Some? {
      var more := cache[coins[n].addressId := userIndex(coins[n].user).value];
      forall a | a in more
        ensures exists k :: 0 <= k < n + 1 && coins[k].addressId == a
      {
        if a in cache {
          var k :| 0 <= k < n && coins[k].addressId == a;
        } else {
          assert coins[n].addressId == a;
        }
      }
    }
  }

  predicate Fits(u: CoinSelect.Utxo) {
    u.vout < 0x1_0000_0000 && -0x8000_0000_0000_0000 <= u.valueSats < 0x8000_0000_0000_0000
  }

  // The input made for one coin.
  ghost predicate InputOf(coins: seq<WalletCoin>, i: nat, userIndex: string -> Option<nat>, derive: nat -> Option<key_pair>,
                          input: TxBuild.TxInput)
    requires i < |coins|
  {
    && SpendOf(coins[i].utxo, input) && input.script == coins[i].script
    && KeyFor(coins, i, userIndex, derive) == Some((input.privKey, input.pubKey))
  }

  // buildTxInputs: looks up each address once, derives the key of every coin, and fails exactly if
  // some coin has none. Values and positions fit their Go types.
  method BuildTxInputs(coins: seq<WalletCoin>, userIndex: string -> Option<nat>, derive: nat -> Option<key_pair>)
      returns (r: Option<seq<TxBuild.TxInput>>)
    requires forall i :: 0 <= i < |coins| ==> Fits(coins[i].utxo)
    ensures r.None? <==> exists i :: 0 <= i < |coins| && KeyFor(coins, i, userIndex, derive).None?
    ensures r.Some? ==> |r.value| == |coins| && InputsFor(Coins(coins), r.value)
    ensures r.Some? ==> forall i :: 0 <= i < |coins| ==> InputOf(coins, i, userIndex, derive, r.value[i])
  {
    hide Cached, IndexFor;
    var cache: map<string, nat> := map[];
    var inputs: seq<TxBuild.TxInput> := [];
    CacheEmpty(coins, userIndex);
    for n := 0 to |coins|
      invariant Cached(coins, n, cache, userIndex)
      invariant |inputs| == n && forall i :: 0 <= i < n ==> InputOf(coins, i, userIndex, derive, inputs[i])
    {
      var u := coins[n];
      if u.addressId !in cache {
        CacheMiss(coins, n, cache, userIndex);
        var index := userIndex(u.user);
        if index.None? {
          assert KeyFor(coins, n, userIndex, derive).None?;
          return None;
        }
        cache := cache[u.addressId := index.value];
      } else {
        CacheHit(coins, n, cache, userIndex);
      }
      var keys := derive(cache[u.addressId]);
      if keys.None? {
        assert KeyFor(coins, n, userIndex, derive).None?;
        return None;
      }
      assert Fits(u.utxo);
      inputs := inputs + [TxBuild.TxInput(u.utxo.txid, u.utxo.vout, u.utxo.valueSats, u.script, keys.value.0, keys.value.1)];
    }
    forall i | 0 <= i < |coins|
      ensures KeyFor(coins, i, userIndex, derive).Some?
    {
      assert InputOf(coins, i, userIndex, derive, inputs[i]);
    }
    return Some(inputs);
  }

  // The key that signs fits a coin received at the address handed out for the same index: the key hash
  // in the coin's script is the hash of the public key in the witness.
  lemma KeyFitsCoin<P(!new)>(c: ExtendedKeys.Crypto<P>, account: ExtendedKeys.ExtendedKey, hrp: string, index: nat, script: string)
    requires ExtendedKeys.Laws(c) && ExtendedKeys.WellFormed(account) && account.isPrivate && ExtendedKeys.Commutes(c, account, 0)
    requires Ascii(hrp) && |hrp| >= 1 && index < 0x8000_0000
    requires ExtendedKeys.DerivePrivKeyAtIndex(c, account, index).Ok?
    ensures var pub := ExtendedKeys.DerivePrivKeyAtIndex(c, account, index).value.1;
            var received := ExtendedKeys.DeriveReceiveAddress(c, ExtendedKeys.String(c, ExtendedKeys.Neuter(c, account)), hrp, index);
            && received.Ok? && Ascii(received.value.0)
            && var paid := Bech32.ScriptFromAddress(received.value.0, hrp);
               && paid.Ok?
               && (Hex.IsHex(script) && Hex.FromHex(script) == paid.value ==> TxBuild.ScriptHash(script) == Ok(c.hash160(pub)))
  {
    hide ExtendedKeys.Laws, ExtendedKeys.DerivePrivKeyAtIndex, ExtendedKeys.DeriveReceiveAddress, ExtendedKeys.String,
         ExtendedKeys.Commutes, Bech32.Hash160FromAddress, Hex.IsHex, Hex.FromHex, ExtendedKeys.Neuter;
    ExtendedKeys.SigningKeyMatchesAddress(c, account, hrp, index);
  }

  lemma CacheEmpty(coins: seq<WalletCoin>, userIndex: string -> Option<nat>)
    ensures Cached(coins, 0, map[], userIndex)
  {
  }

  lemma OutputsParsed(sg: TxBuild.Signer, ins: seq<TxBuild.TxInput>, amount: i64, destScript: seq<byte>, change: i64,
                      changeScript: seq<byte>)
    requires change >= 0 && |destScript| == 22 && |changeScript| == 22 && |ins| < U64
    requires TxBuild.Proper(sg) && TxBuild.Build(sg, ins, Outputs(amount, destScript, change, changeScript)).Ok?
    ensures var outs := Outputs(amount, destScript, change, changeScript);
            var tx := ParseSegwit(TxBuild.Build(sg, ins, outs).value.0);
            tx.Some? && tx.value.outs == outs && PaysTo(tx.value, amount, destScript, change, Some(changeScript))
  {
    hide TxBuild.Proper, TxBuild.Build, ParseSegwit, PaidTo;
    var outs := Outputs(amount, destScript, change, changeScript);
    PaidLists(amount, destScript, change, outs);
    var tx, _ := TxBuild.BuiltTransaction(sg, ins, outs);
  }

  lemma OutputsPay(amount: i64, destScript: seq<byte>, change: i64, changeScript: seq<byte>)
    requires change >= 0 && |destScript| == 22 && |changeScript| == 22
    ensures var outs := Outputs(amount, destScript, change, changeScript);
            Paid(outs) == amount + change && |outs| == CoinSelect.BuiltOutputs(change) && TxBuild.AllP2wpkh(outs)
  {
    var outs := Outputs(amount, destScript, change, changeScript);
    if change > 0 {
      var second := [TxOut(change, changeScript)];
      assert outs[1..] == second && second[1..] == [];
      assert Paid(second) == change + Paid([]);
    } else {
      assert outs[1..] == [];
    }
  }

  lemma RateTimes(v: int, nIn: nat, nOut: nat, rate: int)
    requires v <= CoinSelect.EstimateVSize(nIn, nOut) && rate >= 0
    ensures rate * v <= CoinSelect.Fee(nIn, nOut, rate) && rate * (v - 31) == rate * v - 31 * rate
  {
    hide CoinSelect.EstimateVSize;
  }

  // ---- the outputs, in the bytes that are broadcast ----

  datatype PaymentError = BadDestination | NoChangeAddress | BadChangeAddress | BuildFailed(cause: TxBuild.TxError)

  // The transaction pays the amount to the script of the destination first, and then any change to the
  // script of the sender's own address; nothing else.
  ghost predicate PaysTo(tx: Tx, amount: int, dest: seq<byte>, change: int, own: Option<seq<byte>>) {
    && |tx.outs| == (if change > 0 then 2 else 1)
    && tx.outs[0].script == dest && tx.outs[0].value == amount
    && (change > 0 ==> own.Some? && tx.outs[1].script == own.value && tx.outs[1].value == change)
    && (change > 0 && own.Some? && own.value != dest ==>
          PaidTo(tx.outs, dest) == amount && PaidTo(tx.outs, own.value) == change)
    && (change > 0 && own == Some(dest) ==> PaidTo(tx.outs, dest) == amount + change)
    && (change <= 0 ==> PaidTo(tx.outs, dest) == amount)
    && forall script :: script != dest && !(change > 0 && own == Some(script)) ==> PaidTo(tx.outs, script) == 0
  }

  function ScriptOf(address: string, hrp: string): (r: Option<seq<byte>>)
    requires Ascii(address)
    ensures r.Some? ==> |r.value| == 22
  {
    var script := Bech32.ScriptFromAddress(address, hrp);
    if script.Ok? then Some(script.value) else None
  }

  // Steps 9 and 10 of Send: the outputs are collected, then the transaction is built. The own address
  // is only looked at when there is change.
  method BuildPayment(sg: TxBuild.Signer, ins: seq<TxBuild.TxInput>, hrp: string, toAddress: string, amount: i64,
                      change: i64, ownAddress: Option<string>)
      returns (r: Result<(seq<byte>, string), PaymentError>)
    requires TxBuild.Proper(sg) && |ins| < U64 && Ascii(toAddress) && (ownAddress.Some? ==> Ascii(ownAddress.value))
    ensures r == Err(BadDestination) <==> ScriptOf(toAddress, hrp).None?
    ensures r == Err(NoChangeAddress) <==> ScriptOf(toAddress, hrp).Some? && change > 0 && ownAddress.None?
    ensures r == Err(BadChangeAddress) <==>
              ScriptOf(toAddress, hrp).Some? && change > 0 && ownAddress.Some? && ScriptOf(ownAddress.value, hrp).None?
    ensures r.Ok? ==>
              && ScriptOf(toAddress, hrp).Some? && ParseSegwit(r.value.0).Some?
              && PaysTo(ParseSegwit(r.value.0).value, amount, ScriptOf(toAddress, hrp).value, change,
                        if ownAddress.Some? then ScriptOf(ownAddress.value, hrp) else None)
  {
    hide TxBuild.Proper, TxBuild.Build, ParseSegwit, Bech32.ScriptFromAddress, PaidTo;
    var dest := Bech32.ScriptFromAddress(toAddress, hrp);
    if dest.Err? {
      return Err(BadDestination);
    }
    var outs := [TxOut(amount, dest.value)];
    if change > 0 {
      if ownAddress.None? {
        return Err(NoChangeAddress);
      }
      var own := Bech32.ScriptFromAddress(ownAddress.value, hrp);
      if own.Err? {
        return Err(BadChangeAddress);
      }
      outs := outs + [TxOut(change, own.value)];
    }
    var built := TxBuild.BuildAndSign(sg, ins, outs);
    if built.Err? {
      return Err(BuildFailed(built.error));
    }
    PaidLists(amount, dest.value, change, outs);
    assert forall j :: 0 <= j < |outs| ==> |outs[j].script| == 22;
    var tx, _ := TxBuild.BuiltTransaction(sg, ins, outs);
    r := Ok(built.value);
  }

  // The sums over one and over two outputs.
  lemma PaidLists(amount: i64, dest: seq<byte>, change: i64, outs: seq<TxOut>)
    requires outs == [TxOut(amount, dest)] || (|outs| == 2 && outs[0] == TxOut(amount, dest))
    ensures forall script :: PaidTo(outs, script) ==
              (if script == dest then amount else 0) + (if |outs| == 2 && script == outs[1].script then outs[1].value else 0)
  {
    forall script
      ensures PaidTo(outs, script) ==
              (if script == dest then amount else 0) + (if |outs| == 2 && script == outs[1].script then outs[1].value else 0)
    {
      assert PaidTo([], script) == 0;
      if |outs| == 2 {
        assert outs[1..] == [outs[1]] && outs[1..][1..] == [];
        assert PaidTo(outs[1..], script) == if outs[1].script == script then outs[1].value else 0;
      } else {
        assert outs[1..] == [];
      }
    }
  }
}
