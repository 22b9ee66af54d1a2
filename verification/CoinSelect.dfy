/** Size estimate and greedy coin selection: internal/bitcoin/coin_select.go. */
module CoinSelect {
  import opened Common

  datatype Utxo = Utxo(id: string, txid: string, vout: nat, valueSats: int)

  datatype SelectError = NoUtxos | BadAmount | InsufficientFunds

  datatype Selection = Selection(chosen: seq<Utxo>, change: int, fee: int)

  function EstimateVSize(nInputs: int, nOutputs: int): int {
    var baseSize := 10 + nInputs * 41 + nOutputs * 31;
    var witnessSize := 2 + nInputs * 108;
    var weight := baseSize * 4 + witnessSize;
    (weight + 3) / 4
  }

  function Total(us: seq<Utxo>): int {
    if us == [] then 0 else us[0].valueSats + Total(us[1..])
  }

  ghost predicate Descending(us: seq<Utxo>) {
    forall i, j :: 0 <= i < j < |us| ==> us[i].valueSats >= us[j].valueSats
  }

  function Fee(k: nat, nOutputs: nat, rate: int): int {
    EstimateVSize(k, nOutputs) * rate
  }

  // What one iteration of the loop decides about the coins accumulated so far: go on, or stop
  // with a change and a fee.
  function Decide(k: nat, accumulated: int, amount: int, rate: int, dust: int): Option<(int, int)> {
    var two := amount + Fee(k, 2, rate);
    var one := amount + Fee(k, 1, rate);
    if accumulated >= one && accumulated - one < dust then Some((0, accumulated - amount))
    else if accumulated >= two then
      var change := accumulated - two;
      if 0 < change < dust then
        if accumulated >= one then
          if accumulated - one < dust then Some((0, accumulated - amount))
          else Some((accumulated - one, Fee(k, 1, rate)))
        else Some((change, Fee(k, 1, rate)))
      else Some((change, Fee(k, 2, rate)))
    else None
  }

  // The loop, on coins already sorted.
  function Scan(sorted: seq<Utxo>, k: nat, amount: int, rate: int, dust: int): Result<Selection, SelectError>
    requires 1 <= k
    decreases |sorted| - k
  {
    if k > |sorted| then Err(InsufficientFunds) else
    var d := Decide(k, Total(sorted[..k]), amount, rate, dust);
    if d.Some? then Ok(Selection(sorted[..k], d.value.0, d.value.1)) else Scan(sorted, k + 1, amount, rate, dust)
  }

  // SelectUTXOs, given the order in which sort.Slice leaves the coins.
  function Select(sorted: seq<Utxo>, amount: int, rate: int, dust: int): Result<Selection, SelectError> {
    if sorted == [] then Err(NoUtxos)
    else if amount <= 0 then Err(BadAmount)
    else Scan(sorted, 1, amount, rate, dust)
  }

  // ---- totals and the exchange argument ----

  lemma {:induction false} TotalConcat(xs: seq<Utxo>, ys: seq<Utxo>)
    ensures Total(xs + ys) == Total(xs) + Total(ys)
  {
    if xs == [] {
      assert xs + ys == ys;
    } else {
      assert (xs + ys)[1..] == xs[1..] + ys;
      TotalConcat(xs[1..], ys);
    }
  }

  lemma TotalRemove(us: seq<Utxo>, i: nat)
    requires i < |us|
    ensures Total(us) == us[i].valueSats + Total(us[..i] + us[i + 1..])
  {
    assert us == us[..i] + us[i..];
    TotalConcat(us[..i], us[i..]);
    TotalConcat(us[..i], us[i + 1..]);
  }

  lemma TotalTake(us: seq<Utxo>, k: nat)
    requires k < |us|
    ensures Total(us[..k + 1]) == Total(us[..k]) + us[k].valueSats
  {
    assert us[..k + 1] == us[..k] + [us[k]];
    TotalConcat(us[..k], [us[k]]);
    assert Total([us[k]]) == us[k].valueSats + Total([]);
  }

  lemma MultisetRemove(us: seq<Utxo>, i: nat)
    requires i < |us|
    ensures multiset(us[..i] + us[i + 1..]) == multiset(us) - multiset{us[i]}
  {
    assert us == us[..i] + [us[i]] + us[i + 1..];
  }

  // No k coins are worth more than the first k of the descending order.
  lemma GreedyDominates(sorted: seq<Utxo>, coins: seq<Utxo>)
    requires Descending(sorted) && multiset(coins) <= multiset(sorted)
    ensures |coins| <= |sorted| && Total(coins) <= Total(sorted[..|coins|])
  {
    hide Total, Descending;
    PrefixDominates(sorted, coins);
  }

  // The coins are among the others, as a fact to pass around.
  ghost predicate Drawn(coins: seq<Utxo>, from: seq<Utxo>) {
    multiset(coins) <= multiset(from)
  }

  lemma {:induction false} PrefixDominates(sorted: seq<Utxo>, coins: seq<Utxo>)
    requires Descending(sorted) && Drawn(coins, sorted)
    ensures |coins| <= |sorted| && Total(coins) <= Total(sorted[..|coins|])
    decreases |sorted|
  {
    hide Total, Descending, Drawn;
    DrawnSize(coins, sorted);
    if coins == [] {
      assert sorted[..0] == coins;
    } else {
      var tail := sorted[1..];
      DescendingTail(sorted);
      if i :| 0 <= i < |coins| && coins[i] == sorted[0] {
        DrawnRest(sorted, coins, i);
        PrefixDominates(tail, coins[..i] + coins[i + 1..]);
        WithTop(sorted, coins, i);
      } else {
        DrawnTail(sorted, coins);
        PrefixDominates(tail, coins);
        ShiftDown(sorted, |coins|);
      }
    }
  }

  lemma DescendingTail(sorted: seq<Utxo>)
    requires Descending(sorted) && sorted != []
    ensures Descending(sorted[1..])
  {
  }

  lemma DrawnSize(coins: seq<Utxo>, sorted: seq<Utxo>)
    requires Drawn(coins, sorted)
    ensures |coins| <= |sorted|
  {
    MultisetSize(coins, sorted);
  }

  lemma DrawnRest(sorted: seq<Utxo>, coins: seq<Utxo>, i: nat)
    requires i < |coins| && sorted != [] && coins[i] == sorted[0] && Drawn(coins, sorted)
    ensures Drawn(coins[..i] + coins[i + 1..], sorted[1..])
  {
    assert sorted == [sorted[0]] + sorted[1..];
    RemoveTop(coins, i, sorted[0], sorted[1..]);
  }

  lemma DrawnTail(sorted: seq<Utxo>, coins: seq<Utxo>)
    requires sorted != [] && Drawn(coins, sorted) && forall i :: 0 <= i < |coins| ==> coins[i] != sorted[0]
    ensures Drawn(coins, sorted[1..])
  {
    assert sorted == [sorted[0]] + sorted[1..];
    SubMultisetTail(coins, sorted[0], sorted[1..]);
  }

  lemma WithTop(sorted: seq<Utxo>, coins: seq<Utxo>, i: nat)
    requires i < |coins| <= |sorted| && coins[i] == sorted[0]
    requires Total(coins[..i] + coins[i + 1..]) <= Total(sorted[1..][..|coins| - 1])
    ensures Total(coins) <= Total(sorted[..|coins|])
  {
    TotalRemove(coins, i);
    var window := sorted[..|coins|];
    assert window[1..] == sorted[1..][..|coins| - 1];
  }

  lemma RemoveTop(coins: seq<Utxo>, i: nat, top: Utxo, tail: seq<Utxo>)
    requires i < |coins| && coins[i] == top && multiset(coins) <= multiset([top] + tail)
    ensures multiset(coins[..i] + coins[i + 1..]) <= multiset(tail)
  {
    MultisetRemove(coins, i);
    assert multiset([top] + tail) == multiset{top} + multiset(tail);
  }

  lemma MultisetSize(coins: seq<Utxo>, sorted: seq<Utxo>)
    requires multiset(coins) <= multiset(sorted)
    ensures |coins| <= |sorted|
  {
    assert multiset(sorted) == multiset(coins) + (multiset(sorted) - multiset(coins));
    assert |multiset(sorted)| == |sorted| && |multiset(coins)| == |coins|;
  }

  lemma SubMultisetTail(coins: seq<Utxo>, top: Utxo, tail: seq<Utxo>)
    requires multiset(coins) <= multiset([top] + tail) && top !in coins
    ensures multiset(coins) <= multiset(tail)
  {
    assert multiset([top] + tail) == multiset{top} + multiset(tail);
  }

  lemma ShiftDown(sorted: seq<Utxo>, n: nat)
    requires Descending(sorted) && n < |sorted|
    ensures Total(sorted[1..][..n]) <= Total(sorted[..n])
  {
    var window := sorted[..n + 1];
    assert window == [sorted[0]] + sorted[1..][..n];
    TotalConcat([sorted[0]], sorted[1..][..n]);
    TotalTake(sorted, n);
    assert Total([sorted[0]]) == sorted[0].valueSats + Total([]);
  }

  // ---- what the loop guarantees ----

  // All iterations before k went on.
  lemma {:induction false} ScanStops(sorted: seq<Utxo>, k: nat, amount: int, rate: int, dust: int)
    requires 1 <= k
    ensures var r := Scan(sorted, k, amount, rate, dust);
            var last := if r.Ok? then |r.value.chosen| - 1 else |sorted|;
            && (r.Ok? ==>
                  && k <= |r.value.chosen| <= |sorted| && r.value.chosen == sorted[..|r.value.chosen|]
                  && Decide(|r.value.chosen|, Total(r.value.chosen), amount, rate, dust)
                     == Some((r.value.change, r.value.fee)))
            && (r.Err? ==> r.error == InsufficientFunds)
            && (forall j :: k <= j <= last ==> Decide(j, Total(sorted[..j]), amount, rate, dust).None?)
    decreases |sorted| - k
  {
    hide Decide;
    if k <= |sorted| && Decide(k, Total(sorted[..k]), amount, rate, dust).None? {
      ScanStops(sorted, k + 1, amount, rate, dust);
    }
  }

  // One output more costs 31 virtual bytes, whatever the number of inputs.
  lemma OutputCost(k: nat, rate: int)
    ensures Fee(k, 2, rate) == Fee(k, 1, rate) + 31 * rate
  {
    var w := (10 + k * 41 + 31) * 4 + 2 + k * 108;
    assert EstimateVSize(k, 2) == (w + 124 + 3) / 4 == (w + 3) / 4 + 31;
    assert EstimateVSize(k, 1) == (w + 3) / 4;
    assert (EstimateVSize(k, 1) + 31) * rate == EstimateVSize(k, 1) * rate + 31 * rate;
  }

  function BuiltOutputs(change: int): nat {
    if change > 0 then 2 else 1
  }

  // The dust branch that keeps a change output but charges for one output: the two-output change
  // is dust, the one-output remainder is not.
  predicate UnderpaidChange(k: nat, accumulated: int, amount: int, rate: int, dust: int) {
    var change := accumulated - amount - Fee(k, 2, rate);
    0 < change < dust <= change + 31 * rate
  }

  // When there is change and what is paid, in terms of what remains after the amount and a one-output
  // fee: change is returned exactly if the remainder is not dust and exceeds the price of a change
  // output; the fee is then that of one or of two outputs, and otherwise less than dust above the
  // one-output fee, or exactly the two-output fee.
  ghost predicate ChangeExact(k: nat, accumulated: int, amount: int, rate: int, dust: int, change: int, fee: int) {
    var one, two := EstimateVSize(k, 1) * rate, EstimateVSize(k, 2) * rate;
    var rest := accumulated - amount - one;
    && (change > 0 <==> rest >= dust && rest > 31 * rate)
    && (change > 0 ==> fee == if rest - 31 * rate < dust then one else two)
    && (change == 0 ==> fee < one + dust || fee == two)
  }

  lemma DecideBalances(k: nat, accumulated: int, amount: int, rate: int, dust: int)
    requires rate >= 0 && Decide(k, accumulated, amount, rate, dust).Some?
    ensures var (change, fee) := Decide(k, accumulated, amount, rate, dust).value;
            && accumulated == amount + change + fee
            && (change == 0 || (change > 0 && change >= dust))
            && fee >= Fee(k, 1, rate)
            && (fee >= Fee(k, BuiltOutputs(change), rate) <==>
                  rate == 0 || !UnderpaidChange(k, accumulated, amount, rate, dust))
            && ChangeExact(k, accumulated, amount, rate, dust, change, fee)
  {
    OutputCost(k, rate);
    FeeIs(k, 1, rate);
    FeeIs(k, 2, rate);
    hide Fee, EstimateVSize;
  }

  lemma FeeIs(k: nat, nOutputs: nat, rate: int)
    ensures Fee(k, nOutputs, rate) == EstimateVSize(k, nOutputs) * rate
  {
  }

  // Each total below the two-output cost goes on, unless it falls in the no-change window.
  lemma DecideCovers(k: nat, accumulated: int, amount: int, rate: int, dust: int)
    requires rate >= 0
    ensures var one := amount + Fee(k, 1, rate);
            Decide(k, accumulated, amount, rate, dust).Some? <==>
              accumulated >= one + 31 * rate || one <= accumulated < one + dust
  {
    OutputCost(k, rate);
    hide Fee;
  }

  // ---- optimality ----

  // coins are some of the offered coins, each used at most as often as it is offered.
  ghost predicate Among(coins: seq<Utxo>, offered: seq<Utxo>) {
    coins != [] && multiset(coins) <= multiset(offered)
  }

  // No choice of fewer than limit coins pays the amount and its own two-output fee.
  ghost predicate NoneCovers(offered: seq<Utxo>, limit: nat, amount: int, rate: int) {
    forall coins :: Among(coins, offered) && |coins| < limit ==> Total(coins) < amount + Fee(|coins|, 2, rate)
  }

  // Greedy selection uses the fewest coins that can cover the two-output cost, and reports
  // insufficient funds only if no choice of coins can.
  lemma SelectionOptimal(sorted: seq<Utxo>, amount: int, rate: int, dust: int)
    requires Descending(sorted) && sorted != [] && amount > 0 && rate >= 0
    ensures var r := Select(sorted, amount, rate, dust);
            NoneCovers(sorted, if r.Ok? then |r.value.chosen| else |sorted| + 1, amount, rate)
  {
    hide Decide, Fee;
    ScanStops(sorted, 1, amount, rate, dust);
    var r := Select(sorted, amount, rate, dust);
    var limit := if r.Ok? then |r.value.chosen| else |sorted| + 1;
    forall coins | Among(coins, sorted) && |coins| < limit
      ensures Total(coins) < amount + Fee(|coins|, 2, rate)
    {
      GreedyDominates(sorted, coins);
      OutputCost(|coins|, rate);
      DecideCovers(|coins|, Total(sorted[..|coins|]), amount, rate, dust);
    }
  }

  // Whenever some choice of coins could pay with a single output, selection succeeds.
  ghost predicate OneOutputComplete(rate: int, dust: int) {
    forall sorted, coins, amount ::
      Descending(sorted) && Among(coins, sorted) && amount > 0 && Total(coins) >= amount + Fee(|coins|, 1, rate)
      ==> Select(sorted, amount, rate, dust).Ok?
  }

  // That holds exactly when the dust limit is at least the price of the change output: otherwise a
  // remainder that is neither dust nor worth a change output makes the loop go on.
  lemma OneOutputCompleteIff(rate: int, dust: int)
    requires rate >= 0
    ensures OneOutputComplete(rate, dust) <==> rate == 0 || dust >= 31 * rate
  {
    if rate == 0 || dust >= 31 * rate {
      forall sorted, coins, amount | Descending(sorted) && Among(coins, sorted) && amount > 0
                                     && Total(coins) >= amount + Fee(|coins|, 1, rate)
        ensures Select(sorted, amount, rate, dust).Ok?
      {
        OneOutputFound(sorted, coins, amount, rate, dust);
      }
    } else {
      OneOutputMissed(rate, dust);
    }
  }

  lemma OneOutputFound(sorted: seq<Utxo>, coins: seq<Utxo>, amount: int, rate: int, dust: int)
    requires rate == 0 || dust >= 31 * rate
    requires rate >= 0 && Descending(sorted) && Among(coins, sorted) && amount > 0
    requires Total(coins) >= amount + Fee(|coins|, 1, rate)
    ensures Select(sorted, amount, rate, dust).Ok?
  {
    hide Decide, Fee;
    GreedyDominates(sorted, coins);
    DecideCovers(|coins|, Total(sorted[..|coins|]), amount, rate, dust);
    ScanStops(sorted, 1, amount, rate, dust);
  }

  // A single coin that pays one output and leaves max(dust, 0): reported as insufficient.
  lemma OneOutputMissed(rate: int, dust: int)
    requires rate > 0 && dust < 31 * rate
    ensures !OneOutputComplete(rate, dust)
  {
    hide Decide, Fee;
    var value := 1 + Fee(1, 1, rate) + if dust > 0 then dust else 0;
    var coin := Utxo("coin", "", 0, value);
    var offered := [coin];
    assert Among(offered, offered);
    assert Total(offered) == value + Total([]);
    assert offered[..1] == offered;
    DecideCovers(1, value, 1, rate, dust);
    ScanStops(offered, 1, 1, rate, dust);
    assert Descending(offered) && Select(offered, 1, rate, dust).Err?;
  }

  // The underpaying branch is reachable, for instance at 100 sat/vB with the usual dust limit.
  lemma UnderpaidExample()
    ensures var r := Select([Utxo("coin", "", 0, 15500)], 1000, 100, 546);
            && r.Ok? && r.value.change > 0
            && r.value.fee < 100 * EstimateVSize(1, BuiltOutputs(r.value.change))
  {
    var offered := [Utxo("coin", "", 0, 15500)];
    assert offered[..1] == offered;
    assert Total(offered) == 15500 + Total([]);
  }

  // ---- SelectUTXOs ----

  function InsertDescending(u: Utxo, us: seq<Utxo>): (r: seq<Utxo>)
    requires Descending(us)
    ensures Descending(r) && multiset(r) == multiset(us) + multiset{u}
  {
    if us == [] || u.valueSats >= us[0].valueSats then [u] + us
    else
      assert us == [us[0]] + us[1..];
      var r := InsertDescending(u, us[1..]);
      ConsDescending(us[0], us[1..], u, r);
      [us[0]] + r
  }

  lemma ConsDescending(top: Utxo, tail: seq<Utxo>, u: Utxo, r: seq<Utxo>)
    requires Descending([top] + tail) && u.valueSats <= top.valueSats
    requires Descending(r) && multiset(r) == multiset(tail) + multiset{u}
    ensures Descending([top] + r)
  {
    forall i | 0 <= i < |r|
      ensures r[i].valueSats <= top.valueSats
    {
      assert r[i] in multiset(r);
      if r[i] in tail {
        var j :| 0 <= j < |tail| && tail[j] == r[i];
        assert ([top] + tail)[0] == top && ([top] + tail)[j + 1] == tail[j];
      } else {
        assert r[i] !in multiset(tail);
        assert r[i] == u;
      }
    }
  }

  // Some descending order of the coins, as sort.Slice leaves them.
  function SortDescending(us: seq<Utxo>): (r: seq<Utxo>)
    ensures Descending(r) && multiset(r) == multiset(us)
  {
    if us == [] then []
    else
      assert us == [us[0]] + us[1..];
      InsertDescending(us[0], SortDescending(us[1..]))
  }

  ghost predicate Accounted(s: Selection, utxos: seq<Utxo>, amount: int, rate: int, dust: int) {
    && Among(s.chosen, utxos)
    && Total(s.chosen) == amount + s.change + s.fee
    && (s.change == 0 || (s.change > 0 && s.change >= dust))
    && s.fee >= Fee(|s.chosen|, 1, rate)
    && (s.fee >= Fee(|s.chosen|, BuiltOutputs(s.change), rate) <==>
          rate == 0 || !UnderpaidChange(|s.chosen|, Total(s.chosen), amount, rate, dust))
    && ChangeExact(|s.chosen|, Total(s.chosen), amount, rate, dust, s.change, s.fee)
  }

  lemma SelectAccounted(sorted: seq<Utxo>, utxos: seq<Utxo>, amount: int, rate: int, dust: int)
    requires multiset(sorted) == multiset(utxos) && rate >= 0 && Select(sorted, amount, rate, dust).Ok?
    ensures Accounted(Select(sorted, amount, rate, dust).value, utxos, amount, rate, dust)
  {
    hide Decide, Fee;
    var s := Select(sorted, amount, rate, dust).value;
    ScanStops(sorted, 1, amount, rate, dust);
    DecideBalances(|s.chosen|, Total(s.chosen), amount, rate, dust);
    PrefixAmong(sorted, |s.chosen|, utxos);
  }

  // The accumulation loop.
  method Accumulate(sorted: seq<Utxo>, amount: int, rate: int, dust: int) returns (r: Result<Selection, SelectError>)
    ensures r == Scan(sorted, 1, amount, rate, dust)
  {
    hide Decide;
    var accumulated := 0;
    var chosen: seq<Utxo> := [];
    for i := 0 to |sorted|
      invariant chosen == sorted[..i] && accumulated == Total(chosen)
      invariant Scan(sorted, 1, amount, rate, dust) == Scan(sorted, i + 1, amount, rate, dust)
    {
      TotalTake(sorted, i);
      assert sorted[..i + 1] == sorted[..i] + [sorted[i]];
      chosen := chosen + [sorted[i]];
      accumulated := accumulated + sorted[i].valueSats;
      var d := Decide(|chosen|, accumulated, amount, rate, dust);
      if d.Some? {
        return Ok(Selection(chosen, d.value.0, d.value.1));
      }
    }
    return Err(InsufficientFunds);
  }

  method SelectUtxos(utxos: seq<Utxo>, amount: int, rate: int, dust: int)
    returns (r: Result<Selection, SelectError>, ghost sorted: seq<Utxo>)
    ensures Descending(sorted) && multiset(sorted) == multiset(utxos) && r == Select(sorted, amount, rate, dust)
    ensures utxos == [] <==> r == Err(NoUtxos)
    ensures utxos != [] && amount <= 0 <==> r == Err(BadAmount)
    ensures rate >= 0 && r.Ok? ==>
              Accounted(r.value, utxos, amount, rate, dust) && NoneCovers(utxos, |r.value.chosen|, amount, rate)
    ensures rate >= 0 && r == Err(InsufficientFunds) ==> NoneCovers(utxos, |utxos| + 1, amount, rate)
  {
    hide Scan, Accounted, NoneCovers, SortDescending;
    var order := SortDescending(utxos);
    sorted := order;
    assert |multiset(order)| == |order| && |multiset(utxos)| == |utxos|;
    ScanStops(sorted, 1, amount, rate, dust);
    if |utxos| == 0 {
      return Err(NoUtxos), sorted;
    }
    if amount <= 0 {
      return Err(BadAmount), sorted;
    }
    r := Accumulate(order, amount, rate, dust);
    if rate >= 0 {
      SelectionOptimal(sorted, amount, rate, dust);
      NoneCoversReordered(sorted, utxos, amount, rate);
      if r.Ok? {
        SelectAccounted(sorted, utxos, amount, rate, dust);
      }
    }
  }

  lemma PrefixAmong(order: seq<Utxo>, k: nat, utxos: seq<Utxo>)
    requires 1 <= k <= |order| && multiset(order) == multiset(utxos)
    ensures Among(order[..k], utxos)
  {
    assert order == order[..k] + order[k..];
  }

  lemma NoneCoversReordered(sorted: seq<Utxo>, utxos: seq<Utxo>, amount: int, rate: int)
    requires multiset(sorted) == multiset(utxos)
    ensures forall limit: nat :: NoneCovers(sorted, limit, amount, rate) ==> NoneCovers(utxos, limit, amount, rate)
  {
    hide Fee;
    forall limit: nat | NoneCovers(sorted, limit, amount, rate)
      ensures NoneCovers(utxos, limit, amount, rate)
    {
      forall coins | Among(coins, utxos) && |coins| < limit
        ensures Total(coins) < amount + Fee(|coins|, 2, rate)
      {
        assert Among(coins, sorted);
      }
    }
  }
}
