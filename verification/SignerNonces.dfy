/** Runs of the store's nonce operations. */
module SignerNonces {
  import opened Common
  import opened SignerStore

  // ---- request nonces are not accepted twice while they live ----

  datatype Presented = Presented(nonce: string, ttl: int, now: int)

  function Accepted(nonces: map<string, int>, calls: seq<Presented>): (r: seq<bool>)
    ensures |r| == |calls|
    decreases calls
  {
    if calls == [] then []
    else
      var c := calls[0];
      var (after, ok) := AcceptNonce(nonces, c.nonce, c.ttl, c.now);
      [ok] + Accepted(after, calls[1..])
  }

  ghost predicate ClockForward(calls: seq<Presented>) {
    forall i, j :: 0 <= i < j < |calls| ==> calls[i].now <= calls[j].now
  }

  lemma {:induction false} StoredBlocks(nonces: map<string, int>, calls: seq<Presented>, j: nat)
    requires ClockForward(calls) && j < |calls| && calls[j].nonce in nonces
    requires Accepted(nonces, calls)[j]
    ensures calls[j].now > nonces[calls[j].nonce]
    decreases calls
  {
    var c := calls[0];
    var after := AcceptNonce(nonces, c.nonce, c.ttl, c.now).0;
    if j > 0 && c.now <= nonces[calls[j].nonce] {
      StoredBlocks(after, calls[1..], j - 1);
    }
  }

  // A nonce accepted twice was accepted the second time only after its first life was over.
  lemma {:induction false} ReplayOnlyAfterExpiry(nonces: map<string, int>, calls: seq<Presented>, i: nat, j: nat)
    requires ClockForward(calls) && i < j < |calls| && calls[i].nonce == calls[j].nonce
    requires Accepted(nonces, calls)[i] && Accepted(nonces, calls)[j]
    ensures calls[j].now > calls[i].now + calls[i].ttl
    decreases calls
  {
    var c := calls[0];
    var after := AcceptNonce(nonces, c.nonce, c.ttl, c.now).0;
    if i == 0 {
      StoredBlocks(after, calls[1..], j - 1);
    } else {
      ReplayOnlyAfterExpiry(after, calls[1..], i - 1, j - 1);
    }
  }

  // ---- chain nonces, in memory ----

  datatype Ask = Ask(wallet: string, network: string, pending: uint64)

  function KeyOf(a: Ask): string {
    NonceKey(a.wallet, a.network)
  }

  function Reserved(chain: map<string, uint64>, asks: seq<Ask>): (r: seq<uint64>)
    ensures |r| == |asks|
    decreases asks
  {
    if asks == [] then []
    else
      var n := NextNonce(chain, KeyOf(asks[0]), asks[0].pending);
      [n] + Reserved(chain[KeyOf(asks[0]) := n], asks[1..])
  }

  // No earlier call for the same wallet and network had used up the last 64-bit nonce.
  ghost predicate RoomLeft(chain: map<string, uint64>, asks: seq<Ask>, j: nat)
    requires j < |asks|
  {
    && (KeyOf(asks[j]) in chain ==> chain[KeyOf(asks[j])] != UINT64 - 1)
    && forall i :: 0 <= i < j && KeyOf(asks[i]) == KeyOf(asks[j]) ==> Reserved(chain, asks)[i] != UINT64 - 1
  }

  // A call goes past the stored nonce exactly when that is not the last one.
  lemma NextAdvances(chain: map<string, uint64>, key: string, pending: uint64)
    requires key in chain
    ensures NextNonce(chain, key, pending) > chain[key] <==> chain[key] != UINT64 - 1
    ensures NextNonce(chain, key, pending) >= pending
  {
    if chain[key] != UINT64 - 1 {
      assert Successor(chain[key]) == chain[key] + 1;
    }
  }

  lemma RoomLeftTail(chain: map<string, uint64>, asks: seq<Ask>, j: nat)
    requires 0 < j < |asks| && RoomLeft(chain, asks, j)
    ensures RoomLeft(chain[KeyOf(asks[0]) := Reserved(chain, asks)[0]], asks[1..], j - 1)
  {
    var after := chain[KeyOf(asks[0]) := Reserved(chain, asks)[0]];
    assert Reserved(chain, asks)[1..] == Reserved(after, asks[1..]);
    forall i | 0 <= i < j - 1 && KeyOf(asks[1..][i]) == KeyOf(asks[j])
      ensures Reserved(after, asks[1..])[i] != UINT64 - 1
    {
      assert Reserved(chain, asks)[i + 1] != UINT64 - 1;
    }
  }

  lemma {:induction false} AboveStored(chain: map<string, uint64>, asks: seq<Ask>, j: nat)
    requires j < |asks| && KeyOf(asks[j]) in chain && RoomLeft(chain, asks, j)
    ensures Reserved(chain, asks)[j] > chain[KeyOf(asks[j])]
    decreases asks
  {
    NextAdvances(chain, KeyOf(asks[j]), asks[0].pending);
    if j == 0 {
      NextAdvances(chain, KeyOf(asks[0]), asks[0].pending);
    } else {
      RoomLeftTail(chain, asks, j);
      hide RoomLeft, NextNonce;
      AboveStored(chain[KeyOf(asks[0]) := Reserved(chain, asks)[0]], asks[1..], j - 1);
    }
  }

  // In any run, a later nonce for the same wallet and network is strictly larger than an earlier one.
  lemma {:induction false} StrictlyIncreasing(chain: map<string, uint64>, asks: seq<Ask>, i: nat, j: nat)
    requires i < j < |asks| && KeyOf(asks[i]) == KeyOf(asks[j]) && RoomLeft(chain, asks, j)
    ensures Reserved(chain, asks)[i] < Reserved(chain, asks)[j]
    decreases asks
  {
    RoomLeftTail(chain, asks, j);
    hide RoomLeft, NextNonce;
    var after := chain[KeyOf(asks[0]) := Reserved(chain, asks)[0]];
    if i == 0 {
      AboveStored(after, asks[1..], j - 1);
    } else {
      StrictlyIncreasing(after, asks[1..], i - 1, j - 1);
    }
  }

  // Every nonce is past the stored one and past the earlier ones of its wallet and network.
  ghost predicate Increasing(chain: map<string, uint64>, asks: seq<Ask>) {
    var r := Reserved(chain, asks);
    && (forall j :: 0 <= j < |asks| && KeyOf(asks[j]) in chain ==> chain[KeyOf(asks[j])] < r[j])
    && forall i, j :: 0 <= i < j < |asks| && KeyOf(asks[i]) == KeyOf(asks[j]) ==> r[i] < r[j]
  }

  // A run increases if and only if nothing is asked for after the last 64-bit nonce.
  lemma IncreasingIff(chain: map<string, uint64>, asks: seq<Ask>)
    ensures Increasing(chain, asks) <==> forall j :: 0 <= j < |asks| ==> RoomLeft(chain, asks, j)
  {
    hide Reserved;
    if forall j :: 0 <= j < |asks| ==> RoomLeft(chain, asks, j) {
      forall j | 0 <= j < |asks| && KeyOf(asks[j]) in chain
        ensures chain[KeyOf(asks[j])] < Reserved(chain, asks)[j]
      {
        AboveStored(chain, asks, j);
      }
      forall i, j | 0 <= i < j < |asks| && KeyOf(asks[i]) == KeyOf(asks[j])
        ensures Reserved(chain, asks)[i] < Reserved(chain, asks)[j]
      {
        StrictlyIncreasing(chain, asks, i, j);
      }
    }
  }

  ghost predicate AtMost(chain: map<string, uint64>, asks: seq<Ask>, bound: int) {
    && (forall k :: k in chain ==> chain[k] <= bound)
    && forall i :: 0 <= i < |asks| ==> asks[i].pending <= bound
  }

  // Each call hands out at most one more than what was stored or asked for.
  lemma {:induction false} GrowsByOne(chain: map<string, uint64>, asks: seq<Ask>, bound: int, j: nat)
    requires j < |asks| && AtMost(chain, asks, bound)
    ensures Reserved(chain, asks)[j] <= bound + 1 + j
    decreases asks
  {
    if j > 0 {
      var after := chain[KeyOf(asks[0]) := Reserved(chain, asks)[0]];
      GrowsByOne(after, asks[1..], bound + 1, j - 1);
    }
  }

  // What a caller can check beforehand: stored and pending nonces leave room for all the calls.
  lemma IncreasingWithRoom(chain: map<string, uint64>, asks: seq<Ask>, bound: int)
    requires AtMost(chain, asks, bound) && bound + |asks| < UINT64 - 1
    ensures Increasing(chain, asks)
  {
    hide Reserved, Increasing;
    forall j | 0 <= j < |asks|
      ensures RoomLeft(chain, asks, j)
    {
      forall i | 0 <= i < j
        ensures Reserved(chain, asks)[i] != UINT64 - 1
      {
        GrowsByOne(chain, asks, bound, i);
      }
    }
    IncreasingIff(chain, asks);
  }

  lemma {:induction false} NeverBelowPending(chain: map<string, uint64>, asks: seq<Ask>, j: nat)
    requires j < |asks|
    ensures Reserved(chain, asks)[j] >= asks[j].pending
    decreases asks
  {
    if j > 0 {
      NeverBelowPending(chain[KeyOf(asks[0]) := Reserved(chain, asks)[0]], asks[1..], j - 1);
    }
  }

  // Once the last 64-bit nonce was handed out the next call does not go past it: RoomLeft is needed.
  lemma WrapRepeats(wallet: string, network: string, pending: uint64)
    ensures Reserved(map[], [Ask(wallet, network, UINT64 - 1), Ask(wallet, network, pending)]) == [UINT64 - 1, pending]
  {
    var a, b := Ask(wallet, network, UINT64 - 1), Ask(wallet, network, pending);
    assert [a, b][1..] == [b];
    assert Reserved(map[KeyOf(a) := UINT64 - 1], [b]) == [pending];
  }

  // ---- chain nonces, in Postgres ----

  datatype RowStatus = Held | Submitted | Failed

  datatype RowKey = RowKey(wallet: string, network: string, nonce: int)

  datatype ReserveError = DuplicateRow | OutOfRange

  predicate Active(s: RowStatus) {
    s.Held? || s.Submitted?
  }

  ghost predicate ActiveRow(rows: map<RowKey, RowStatus>, wallet: string, network: string, n: int) {
    RowKey(wallet, network, n) in rows && Active(rows[RowKey(wallet, network, n)])
  }

  // BIGINT columns hold 63-bit nonces.
  ghost predicate RowsSound(rows: map<RowKey, RowStatus>) {
    forall k :: k in rows ==> 0 <= k.nonce < UINT64 / 2
  }

  // SELECT max(nonce) over the reserved and submitted rows.
  ghost predicate IsMax(rows: map<RowKey, RowStatus>, wallet: string, network: string, max: Option<int>) {
    && (max.Some? ==> ActiveRow(rows, wallet, network, max.value))
    && forall n :: ActiveRow(rows, wallet, network, n) ==> max.Some? && n <= max.value
  }

  function MaxOf(rows: map<RowKey, RowStatus>, wallet: string, network: string): (max: Option<int>)
    ensures IsMax(rows, wallet, network, max)
  {
    var mine := set k | k in rows && k.wallet == wallet && k.network == network && Active(rows[k]) :: k.nonce;
    assert forall n :: ActiveRow(rows, wallet, network, n) ==> RowKey(wallet, network, n) in rows && n in mine;
    LargestOrNone(mine);
    if m :| m in mine && Largest(mine, m) then Some(m) else None
  }

  predicate Largest(s: set<int>, m: int) {
    m in s && forall n :: n in s ==> n <= m
  }

  lemma {:induction false} LargestExists(s: set<int>, x: int)
    requires x in s
    ensures exists m :: Largest(s, m)
    decreases s
  {
    var rest := s - {x};
    assert s == rest + {x};
    if y: int :| y in rest {
      LargestExists(rest, y);
      var m :| Largest(rest, m);
      assert Largest(s, if m < x then x else m);
    } else {
      assert Largest(s, x);
    }
  }

  lemma LargestOrNone(s: set<int>)
    ensures (exists m :: m in s && Largest(s, m)) || forall n :: n !in s
  {
    if x: int :| x in s {
      LargestExists(s, x);
    }
  }

  function Candidate(rows: map<RowKey, RowStatus>, wallet: string, network: string, pending: uint64): int {
    var max := MaxOf(rows, wallet, network);
    if max.Some? && max.value + 1 > pending then max.value + 1 else pending
  }

  // The row is inserted or, when its key exists or does not fit the column, nothing happens.
  function ReserveRow(rows: map<RowKey, RowStatus>, wallet: string, network: string, pending: uint64)
    : (map<RowKey, RowStatus>, Result<int, ReserveError>)
  {
    var n := Candidate(rows, wallet, network, pending);
    if n >= UINT64 / 2 then (rows, Err(OutOfRange))
    else if RowKey(wallet, network, n) in rows then (rows, Err(DuplicateRow))
    else (rows[RowKey(wallet, network, n) := Held], Ok(n))
  }

  datatype PgStep =
    | PgReserve(wallet: string, network: string, pending: uint64)
    | PgMark(key: RowKey, status: RowStatus)

  function PgNext(rows: map<RowKey, RowStatus>, step: PgStep): map<RowKey, RowStatus> {
    match step
    case PgReserve(w, n, p) => ReserveRow(rows, w, n, p).0
    case PgMark(k, s) => if k in rows then rows[k := s] else rows
  }

  // What a run hands out, in order.
  function Handed(rows: map<RowKey, RowStatus>, steps: seq<PgStep>): (r: seq<RowKey>)
    decreases steps
  {
    if steps == [] then []
    else
      var rest := Handed(PgNext(rows, steps[0]), steps[1..]);
      if steps[0].PgReserve? then
        var got := ReserveRow(rows, steps[0].wallet, steps[0].network, steps[0].pending).1;
        if got.Ok? then [RowKey(steps[0].wallet, steps[0].network, got.value)] + rest else rest
      else rest
  }

  lemma {:induction false} HandedAreNew(rows: map<RowKey, RowStatus>, steps: seq<PgStep>)
    ensures forall i :: 0 <= i < |Handed(rows, steps)| ==> Handed(rows, steps)[i] !in rows
    decreases steps
  {
    if steps != [] {
      HandedAreNew(PgNext(rows, steps[0]), steps[1..]);
      hide Candidate;
    }
  }

  // The primary key alone: no run hands out a nonce twice for one wallet and network, whatever the
  // statuses it marks in between.
  lemma {:induction false} NeverTwice(rows: map<RowKey, RowStatus>, steps: seq<PgStep>)
    ensures forall i, j :: 0 <= i < j < |Handed(rows, steps)| ==> Handed(rows, steps)[i] != Handed(rows, steps)[j]
    decreases steps
  {
    if steps != [] {
      var after := PgNext(rows, steps[0]);
      NeverTwice(after, steps[1..]);
      HandedAreNew(after, steps[1..]);
      hide Candidate;
    }
  }

  // When a reservation succeeds, and what it then promises: a nonce not below the chain's, above
  // every reserved or submitted one. It fails on a row already marked failed at the chain's own
  // pending nonce, or when the nonce does not fit.
  lemma ReserveRowExactly(rows: map<RowKey, RowStatus>, wallet: string, network: string, pending: uint64)
    requires RowsSound(rows)
    ensures var got := ReserveRow(rows, wallet, network, pending).1;
            && (got.Ok? ==>
                  && got.value >= pending
                  && forall n :: ActiveRow(rows, wallet, network, n) ==> n < got.value)
            && (got == Err(DuplicateRow) <==> exists c :: Blocks(rows, wallet, network, pending, c))
            && (got == Err(OutOfRange) <==>
                  pending >= UINT64 / 2 || ActiveRow(rows, wallet, network, UINT64 / 2 - 1))
  {
    var max := MaxOf(rows, wallet, network);
    var n := Candidate(rows, wallet, network, pending);
    assert IsMax(rows, wallet, network, max);
    hide MaxOf;
    if max.Some? && max.value + 1 > pending {
      assert ActiveRow(rows, wallet, network, max.value) && n == max.value + 1;
    }
    if c :| Blocks(rows, wallet, network, pending, c) {
      assert c == n;
    }
    if n < UINT64 / 2 && RowKey(wallet, network, n) in rows {
      assert Blocks(rows, wallet, network, pending, n);
    }
  }

  // A row at c, the chain's pending nonce or the successor of an active one, with only smaller
  // active nonces: necessarily a failed row.
  ghost predicate Blocks(rows: map<RowKey, RowStatus>, wallet: string, network: string, pending: uint64, c: int) {
    && pending <= c && (c == pending || ActiveRow(rows, wallet, network, c - 1))
    && RowKey(wallet, network, c) in rows
    && forall m :: ActiveRow(rows, wallet, network, m) ==> m < c
  }

  // ---- when the table's nonces increase ----

  predicate Mine(k: RowKey, wallet: string, network: string) {
    k.wallet == wallet && k.network == network
  }

  // Larger than every nonce the table holds for the wallet and network, failed ones included.
  ghost predicate AboveAll(rows: map<RowKey, RowStatus>, wallet: string, network: string, n: int) {
    forall k :: k in rows && Mine(k, wallet, network) ==> k.nonce < n
  }

  // Every failed nonce is behind the chain's pending value or not past an active one.
  ghost predicate FailedBehind(rows: map<RowKey, RowStatus>, wallet: string, network: string, pending: uint64) {
    forall k :: k in rows && Mine(k, wallet, network) && rows[k].Failed? ==>
      k.nonce < pending || exists m :: ActiveRow(rows, wallet, network, m) && k.nonce <= m
  }

  // A reservation is above every earlier nonce if and only if the failed ones are behind, which the
  // caller can see before the call.
  lemma ReserveAboveAllIff(rows: map<RowKey, RowStatus>, wallet: string, network: string, pending: uint64)
    requires ReserveRow(rows, wallet, network, pending).1.Ok?
    ensures AboveAll(rows, wallet, network, ReserveRow(rows, wallet, network, pending).1.value) <==>
            FailedBehind(rows, wallet, network, pending)
  {
    var max := MaxOf(rows, wallet, network);
    var n := Candidate(rows, wallet, network, pending);
    assert IsMax(rows, wallet, network, max);
    hide MaxOf;
    assert max.Some? ==> ActiveRow(rows, wallet, network, max.value);
    forall k | k in rows && Mine(k, wallet, network)
      ensures !rows[k].Failed? ==> k.nonce < n
      ensures k.nonce < n <==> k.nonce < pending || (max.Some? && k.nonce <= max.value)
    {
      assert k == RowKey(wallet, network, k.nonce);
      assert !rows[k].Failed? ==> ActiveRow(rows, wallet, network, k.nonce);
    }
  }

  // At every successful reservation of the run the failed rows are behind.
  ghost predicate FailedStayBehind(rows: map<RowKey, RowStatus>, steps: seq<PgStep>)
    decreases steps
  {
    steps == [] || (
      && FailedStayBehind(PgNext(rows, steps[0]), steps[1..])
      && (steps[0].PgReserve? && ReserveRow(rows, steps[0].wallet, steps[0].network, steps[0].pending).1.Ok? ==>
            FailedBehind(rows, steps[0].wallet, steps[0].network, steps[0].pending)))
  }

  ghost predicate HandedIncrease(handed: seq<RowKey>) {
    forall i, j :: 0 <= i < j < |handed| && Mine(handed[i], handed[j].wallet, handed[j].network) ==>
      handed[i].nonce < handed[j].nonce
  }

  ghost predicate HandedAbove(rows: map<RowKey, RowStatus>, handed: seq<RowKey>) {
    forall i :: 0 <= i < |handed| ==> AboveAll(rows, handed[i].wallet, handed[i].network, handed[i].nonce)
  }

  lemma SameKeysAbove(rows: map<RowKey, RowStatus>, rows': map<RowKey, RowStatus>, handed: seq<RowKey>)
    requires rows.Keys == rows'.Keys
    ensures HandedAbove(rows, handed) <==> HandedAbove(rows', handed)
  {
    forall i | 0 <= i < |handed|
      ensures AboveAll(rows, handed[i].wallet, handed[i].network, handed[i].nonce)
              <==> AboveAll(rows', handed[i].wallet, handed[i].network, handed[i].nonce)
    {
      assert forall k :: k in rows <==> k in rows';
    }
  }

  // Handing out one more nonce and then the rest.
  lemma HandedCons(rows: map<RowKey, RowStatus>, key: RowKey, rest: seq<RowKey>)
    ensures HandedAbove(rows, [key] + rest) && HandedIncrease([key] + rest) <==>
            AboveAll(rows, key.wallet, key.network, key.nonce)
            && HandedAbove(rows[key := Held], rest) && HandedIncrease(rest)
  {
    var all := [key] + rest;
    forall i | 0 <= i < |rest|
      ensures AboveAll(rows[key := Held], rest[i].wallet, rest[i].network, rest[i].nonce) <==>
              AboveAll(rows, rest[i].wallet, rest[i].network, rest[i].nonce)
              && (Mine(key, rest[i].wallet, rest[i].network) ==> key.nonce < rest[i].nonce)
    {
      AboveInsert(rows, key, rest[i]);
    }
    hide AboveAll;
    assert forall i :: 0 <= i < |rest| ==> all[i + 1] == rest[i];
    if HandedAbove(rows, all) && HandedIncrease(all) {
      assert AboveAll(rows, all[0].wallet, all[0].network, all[0].nonce);
      forall i | 0 <= i < |rest|
        ensures AboveAll(rows, rest[i].wallet, rest[i].network, rest[i].nonce)
        ensures Mine(key, rest[i].wallet, rest[i].network) ==> key.nonce < rest[i].nonce
      {
        assert all[i + 1] == rest[i] && all[0] == key;
      }
      forall i, j | 0 <= i < j < |rest| && Mine(rest[i], rest[j].wallet, rest[j].network)
        ensures rest[i].nonce < rest[j].nonce
      {
        assert all[i + 1] == rest[i] && all[j + 1] == rest[j];
      }
    }
  }

  lemma AboveInsert(rows: map<RowKey, RowStatus>, key: RowKey, r: RowKey)
    ensures AboveAll(rows[key := Held], r.wallet, r.network, r.nonce) <==>
            AboveAll(rows, r.wallet, r.network, r.nonce) && (Mine(key, r.wallet, r.network) ==> key.nonce < r.nonce)
  {
    var more := rows[key := Held];
    assert forall k :: k in more <==> k in rows || k == key;
  }

  lemma {:induction false} IncreaseFromIff(rows: map<RowKey, RowStatus>, steps: seq<PgStep>)
    ensures HandedAbove(rows, Handed(rows, steps)) && HandedIncrease(Handed(rows, steps)) <==> FailedStayBehind(rows, steps)
    decreases steps
  {
    hide Candidate, FailedBehind, AboveAll, HandedAbove, HandedIncrease;
    if steps == [] {
      NothingHanded(rows);
    } else {
      var step := steps[0];
      var after := PgNext(rows, step);
      var rest := Handed(after, steps[1..]);
      IncreaseFromIff(after, steps[1..]);
      if step.PgReserve? && ReserveRow(rows, step.wallet, step.network, step.pending).1.Ok? {
        ReserveAboveAllIff(rows, step.wallet, step.network, step.pending);
        var key := RowKey(step.wallet, step.network, ReserveRow(rows, step.wallet, step.network, step.pending).1.value);
        HandedCons(rows, key, rest);
      } else {
        SameKeysAbove(rows, after, rest);
      }
    }
  }

  lemma NothingHanded(rows: map<RowKey, RowStatus>)
    ensures HandedAbove(rows, []) && HandedIncrease([])
  {
  }

  // Over every run from the empty table: the nonces of each wallet and network increase strictly if
  // and only if at every reservation the failed ones are behind.
  lemma HandedIncreaseIff(steps: seq<PgStep>)
    ensures HandedIncrease(Handed(map[], steps)) <==> FailedStayBehind(map[], steps)
  {
    IncreaseFromIff(map[], steps);
    assert HandedAbove(map[], Handed(map[], steps));
    hide Handed, FailedStayBehind, HandedIncrease;
  }

  // In particular they increase if nothing is ever marked failed, whatever the table held before.
  lemma {:induction false} IncreaseWithoutFailures(rows: map<RowKey, RowStatus>, steps: seq<PgStep>)
    requires forall i :: 0 <= i < |steps| && steps[i].PgMark? ==> !steps[i].status.Failed?
    ensures HandedIncrease(Handed(rows, steps))
    decreases steps
  {
    if steps != [] {
      var after := PgNext(rows, steps[0]);
      IncreaseWithoutFailures(after, steps[1..]);
      var rest := Handed(after, steps[1..]);
      var handed := Handed(rows, steps);
      hide Candidate;
      if handed != rest {
        var key := handed[0];
        assert handed == [key] + rest;
        assert ActiveRow(after, key.wallet, key.network, key.nonce);
        forall j | 0 <= j < |rest| && Mine(key, rest[j].wallet, rest[j].network)
          ensures key.nonce < rest[j].nonce
        {
          ActiveStaysBelow(after, steps[1..], j, key.nonce);
        }
      }
    }
  }

  lemma {:induction false} ActiveStaysBelow(rows: map<RowKey, RowStatus>, steps: seq<PgStep>, i: nat, n: int)
    requires forall j :: 0 <= j < |steps| && steps[j].PgMark? ==> !steps[j].status.Failed?
    requires i < |Handed(rows, steps)|
    requires ActiveRow(rows, Handed(rows, steps)[i].wallet, Handed(rows, steps)[i].network, n)
    ensures n < Handed(rows, steps)[i].nonce
    decreases steps
  {
    var step := steps[0];
    var after := PgNext(rows, step);
    var got := if step.PgReserve? then ReserveRow(rows, step.wallet, step.network, step.pending).1 else Err(OutOfRange);
    var r := Handed(rows, steps)[i];
    if got.Ok? && i == 0 {
      ActiveBelow(rows, step.wallet, step.network, step.pending, n);
    } else {
      hide Candidate;
      assert ActiveRow(after, r.wallet, r.network, n);
      ActiveStaysBelow(after, steps[1..], if got.Ok? then i - 1 else i, n);
    }
  }

  lemma ActiveBelow(rows: map<RowKey, RowStatus>, wallet: string, network: string, pending: uint64, n: int)
    requires ActiveRow(rows, wallet, network, n) && ReserveRow(rows, wallet, network, pending).1.Ok?
    ensures n < ReserveRow(rows, wallet, network, pending).1.value
  {
    assert IsMax(rows, wallet, network, MaxOf(rows, wallet, network));
    hide MaxOf;
  }

  // A run that does not increase: the maximum forgets a failed row, so a smaller pending value is
  // handed out after it; and at its own value the failed row blocks.
  lemma FailedRowForgotten(wallet: string, network: string)
    ensures var five := RowKey(wallet, network, 5);
            var steps := [PgReserve(wallet, network, 5), PgMark(five, Failed), PgReserve(wallet, network, 3)];
            && Handed(map[], steps) == [five, RowKey(wallet, network, 3)]
            && !HandedIncrease(Handed(map[], steps))
    ensures ReserveRow(map[RowKey(wallet, network, 5) := Failed], wallet, network, 5).1 == Err(DuplicateRow)
  {
    var five := RowKey(wallet, network, 5);
    var failed := map[five := Failed];
    NoneActive(map[], wallet, network, 5);
    NoneActive(failed, wallet, network, 3);
    NoneActive(failed, wallet, network, 5);
    hide Candidate;
    var third := [PgReserve(wallet, network, 3)];
    var second := [PgMark(five, Failed)] + third;
    var steps := [PgReserve(wallet, network, 5), PgMark(five, Failed), PgReserve(wallet, network, 3)];
    assert steps[1..] == second && second[1..] == third && third[1..] == [];
    assert Handed(failed, third) == [RowKey(wallet, network, 3)];
    assert PgNext(map[five := Held], second[0]) == failed;
    assert Handed(map[five := Held], second) == [RowKey(wallet, network, 3)];
    assert Handed(map[], steps) == [five, RowKey(wallet, network, 3)];
    var handed := Handed(map[], steps);
    assert Mine(handed[0], handed[1].wallet, handed[1].network) && handed[0].nonce > handed[1].nonce;
  }

  lemma NoneActive(rows: map<RowKey, RowStatus>, wallet: string, network: string, pending: uint64)
    requires forall n :: !ActiveRow(rows, wallet, network, n)
    ensures Candidate(rows, wallet, network, pending) == pending
  {
    assert IsMax(rows, wallet, network, MaxOf(rows, wallet, network));
    hide MaxOf;
  }
}
