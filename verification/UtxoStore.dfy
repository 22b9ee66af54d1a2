/**
  The btc_utxos table and the statements of internal/bitcoin/repository.go that change it. Each
  method is one SQL statement, so each is atomic on its own and nothing more is.
 */
module UtxoStore {
  import opened Common

  datatype Status = Pending | Confirmed | Reserved | Spent | Orphaned

  datatype OutPoint = OutPoint(network: string, txid: string, vout: nat)

  datatype Coin = Coin(at: OutPoint, value: int, confirmations: int, status: Status, spentBy: string)

  // Rows by primary key.
  type Table = map<string, Coin>

  // The unique constraint on (network, txid, vout).
  ghost predicate UniqueOutPoints(t: Table) {
    forall x, y :: x in t && y in t && t[x].at == t[y].at ==> x == y
  }

  // UPDATE ... SET status = to WHERE id IN (ids) AND status = from.
  function Move(t: Table, ids: set<string>, from: Status, to: Status): (r: Table)
    ensures r.Keys == t.Keys
  {
    map id | id in t :: if id in ids && t[id].status == from then t[id].(status := to) else t[id]
  }

  function Elements(ids: seq<string>): set<string> {
    set id | id in ids
  }

  // The rows such an update affects.
  function Affected(t: Table, ids: seq<string>, from: Status): set<string> {
    set id | id in ids && id in t && t[id].status == from
  }

  function Spend(t: Table, ids: set<string>, txid: string): (r: Table)
    ensures r.Keys == t.Keys
  {
    map id | id in t :: if id in ids then t[id].(status := Spent, spentBy := txid) else t[id]
  }

  function Orphan(t: Table, id: string): (r: Table)
    ensures r.Keys == t.Keys
  {
    if id in t && (t[id].status.Pending? || t[id].status.Confirmed?) then t[id := t[id].(status := Orphaned)] else t
  }

  function MergedStatus(status: Status, confirmations: int): Status {
    if status.Spent? || status.Reserved? then status
    else if confirmations >= 1 then Confirmed
    else status
  }

  function Merged(row: Coin, c: Coin): Coin {
    row.(confirmations := if c.confirmations > row.confirmations then c.confirmations else row.confirmations,
         status := MergedStatus(row.status, c.confirmations))
  }

  // The row that an upsert of c touches on conflict.
  ghost function ConflictRow(t: Table, at: OutPoint): Option<string> {
    if exists id :: id in t && t[id].at == at then
      var id :| id in t && t[id].at == at;
      Some(id)
    else None
  }

  // INSERT ... ON CONFLICT (network, txid, vout) DO UPDATE; a clash of primary keys is an error.
  ghost function Upsert(t: Table, id: string, c: Coin): Table {
    var row := ConflictRow(t, c.at);
    if row.Some? then
      t[row.value := Merged(t[row.value], c)]
    else if id in t then t
    else t[id := c]
  }

  lemma UpsertUnique(t: Table, id: string, c: Coin)
    requires UniqueOutPoints(t)
    ensures UniqueOutPoints(Upsert(t, id, c))
    ensures t.Keys <= Upsert(t, id, c).Keys
    ensures forall x :: x in t ==> Upsert(t, id, c)[x].at == t[x].at
  {
  }

  // A scan of a known outpoint raises its confirmations, never lowers them, and confirms it at one
  // confirmation unless it is spent or reserved; other rows are left alone.
  lemma UpsertMerges(t: Table, id: string, c: Coin, x: string)
    requires UniqueOutPoints(t) && x in t
    ensures var r := Upsert(t, id, c);
            && x in r && r[x].value == t[x].value && r[x].spentBy == t[x].spentBy
            && (t[x].at != c.at ==> r[x] == t[x])
            && (t[x].at == c.at ==>
                  && r[x].confirmations >= t[x].confirmations && r[x].confirmations >= c.confirmations
                  && (r[x].confirmations == t[x].confirmations || r[x].confirmations == c.confirmations)
                  && (t[x].status in {Spent, Reserved} ==> r[x].status == t[x].status)
                  && (t[x].status in {Pending, Confirmed, Orphaned} ==>
                        r[x].status == if c.confirmations > 0 then Confirmed else t[x].status))
  {
  }

  // A new outpoint is inserted as it was seen, under the given id.
  lemma UpsertInserts(t: Table, id: string, c: Coin)
    requires id !in t && forall x :: x in t ==> t[x].at != c.at
    ensures Upsert(t, id, c) == t[id := c]
  {
  }

  // A spent or reserved coin comes out of a scan as it went in.
  lemma UpsertKeeps(t: Table, id: string, c: Coin, x: string)
    requires x in t && (t[x].status.Spent? || t[x].status.Reserved?)
    ensures x in Upsert(t, id, c) && Upsert(t, id, c)[x].status == t[x].status
    ensures Upsert(t, id, c)[x].spentBy == t[x].spentBy
  {
  }

  lemma {:induction false} ElementsSize(ids: seq<string>)
    ensures |Elements(ids)| <= |ids|
    ensures |Elements(ids)| == |ids| <==> forall i, j :: 0 <= i < j < |ids| ==> ids[i] != ids[j]
  {
    if ids == [] {
    } else {
      var n := |ids| - 1;
      var init, last := ids[..n], ids[n];
      ElementsSize(init);
      assert Elements(ids) == Elements(init) + {last};
      if last in init {
        var i :| 0 <= i < n && init[i] == last;
        assert ids[i] == ids[n];
      }
    }
  }

  // The affected-row count equals the number of ids exactly when the ids are distinct and every
  // one of them was in the required status.
  lemma AffectedAll(t: Table, ids: seq<string>, from: Status)
    ensures |Affected(t, ids, from)| <= |ids|
    ensures |Affected(t, ids, from)| == |ids| <==>
              && (forall i, j :: 0 <= i < j < |ids| ==> ids[i] != ids[j])
              && (forall id :: id in ids ==> id in t && t[id].status == from)
  {
    ElementsSize(ids);
    var a, e := Affected(t, ids, from), Elements(ids);
    assert a <= e;
    SubsetSize(a, e);
    if |a| == |ids| {
      assert a == e;
      assert forall id :: id in ids ==> id in e;
    }
    if forall id :: id in ids ==> id in t && t[id].status == from {
      assert a == e;
    }
  }

  lemma {:induction false} SubsetSize(a: set<string>, b: set<string>)
    requires a <= b
    ensures |a| <= |b| && (|a| == |b| ==> a == b)
    decreases |a|
  {
    if a != {} {
      var x :| x in a;
      SubsetSize(a - {x}, b - {x});
      assert a == (a - {x}) + {x} && b == (b - {x}) + {x};
    }
  }

  // A reservation, successful or not, leaves the table as it was exactly if none of the ids was
  // confirmed.
  lemma ReserveUnchangedIff(t: Table, ids: seq<string>)
    ensures Move(t, Elements(ids), Confirmed, Reserved) == t <==> Affected(t, ids, Confirmed) == {}
  {
    var moved := Move(t, Elements(ids), Confirmed, Reserved);
    if id :| id in Affected(t, ids, Confirmed) {
      assert moved[id].status == Reserved;
    } else {
      forall id | id in t
        ensures moved[id] == t[id]
      {
        assert id !in Affected(t, ids, Confirmed);
        assert id in Elements(ids) <==> id in ids;
      }
    }
  }

  // A failed reservation of two coins, one of them already reserved by somebody else, leaves the other
  // one reserved.
  lemma FailedReserveKeepsRow(a: Coin, b: Coin)
    requires a.status.Confirmed? && !b.status.Confirmed?
    ensures var t := map["a" := a, "b" := b];
            && |Affected(t, ["a", "b"], Confirmed)| != 2
            && Move(t, Elements(["a", "b"]), Confirmed, Reserved) == map["a" := a.(status := Reserved), "b" := b]
  {
    var t := map["a" := a, "b" := b];
    assert Affected(t, ["a", "b"], Confirmed) == {"a"};
  }

  class Repository {
    var coins: Table

    constructor ()
      ensures coins == map[]
    {
      coins := map[];
    }

    // ReserveUTXOs. The error leaves behind whatever rows it did reserve.
    method ReserveUtxos(ids: seq<string>) returns (ok: bool)
      modifies this
      ensures coins == Move(old(coins), Elements(ids), Confirmed, Reserved)
      ensures ok <==>
                && (forall i, j :: 0 <= i < j < |ids| ==> ids[i] != ids[j])
                && (forall id :: id in ids ==> id in old(coins) && old(coins)[id].status == Confirmed)
    {
      var before := coins;
      var n := 0;
      hide Affected, Elements;
      EmptyMove(before, Confirmed, Reserved);
      for i := 0 to |ids|
        invariant coins == Move(before, Elements(ids[..i]), Confirmed, Reserved)
        invariant n == |Affected(before, ids[..i], Confirmed)|
      {
        MoveOne(before, ids, i, Confirmed, Reserved);
        if ids[i] in coins && coins[ids[i]].status == Confirmed {
          coins := coins[ids[i] := coins[ids[i]].(status := Reserved)];
          n := n + 1;
        }
      }
      assert ids[..|ids|] == ids;
      AffectedAll(before, ids, Confirmed);
      ok := n == |ids|;
    }

    // ReleaseUTXOs.
    method ReleaseUtxos(ids: seq<string>)
      modifies this
      ensures coins == Move(old(coins), Elements(ids), Reserved, Confirmed)
    {
      var before := coins;
      hide Affected, Elements;
      EmptyMove(before, Reserved, Confirmed);
      for i := 0 to |ids|
        invariant coins == Move(before, Elements(ids[..i]), Reserved, Confirmed)
      {
        MoveOne(before, ids, i, Reserved, Confirmed);
        if ids[i] in coins && coins[ids[i]].status == Reserved {
          coins := coins[ids[i] := coins[ids[i]].(status := Confirmed)];
        }
      }
      assert ids[..|ids|] == ids;
    }

    // MarkUTXOsSpent: no status guard.
    method MarkUtxosSpent(txid: string, ids: seq<string>)
      modifies this
      ensures coins == Spend(old(coins), Elements(ids), txid)
    {
      var before := coins;
      assert coins == Spend(before, Elements(ids[..0]), txid);
      for i := 0 to |ids|
        invariant coins == Spend(before, Elements(ids[..i]), txid)
      {
        assert Elements(ids[..i + 1]) == Elements(ids[..i]) + {ids[i]};
        if ids[i] in coins {
          coins := coins[ids[i] := coins[ids[i]].(status := Spent, spentBy := txid)];
        }
      }
      assert ids[..|ids|] == ids;
    }

    // MarkUTXOOrphaned.
    method MarkUtxoOrphaned(id: string)
      modifies this
      ensures coins == Orphan(old(coins), id)
    {
      if id in coins && (coins[id].status == Pending || coins[id].status == Confirmed) {
        coins := coins[id := coins[id].(status := Orphaned)];
      }
    }

    // UpsertUTXO.
    method UpsertUtxo(id: string, c: Coin) returns (ok: bool)
      requires UniqueOutPoints(coins)
      modifies this
      ensures coins == Upsert(old(coins), id, c) && UniqueOutPoints(coins)
      ensures !ok <==> id in old(coins) && forall x :: x in old(coins) ==> old(coins)[x].at != c.at
    {
      UpsertUnique(coins, id, c);
      if x :| x in coins && coins[x].at == c.at {
        coins := coins[x := Merged(coins[x], c)];
        return true;
      }
      if id in coins {
        return false;
      }
      coins := coins[id := c];
      return true;
    }
  }

  lemma EmptyMove(t: Table, from: Status, to: Status)
    ensures Move(t, Elements([]), from, to) == t && Affected(t, [], from) == {}
  {
  }

  // Updating one more row extends the update.
  lemma MoveOne(t: Table, ids: seq<string>, i: nat, from: Status, to: Status)
    requires i < |ids| && from != to
    ensures var done := Move(t, Elements(ids[..i]), from, to);
            var id := ids[i];
            if id in done && done[id].status == from
            then Move(t, Elements(ids[..i + 1]), from, to) == done[id := done[id].(status := to)]
                 && |Affected(t, ids[..i + 1], from)| == |Affected(t, ids[..i], from)| + 1
            else Move(t, Elements(ids[..i + 1]), from, to) == done
                 && Affected(t, ids[..i + 1], from) == Affected(t, ids[..i], from)
  {
    hide Move, Elements, Affected;
    ElementsOne(ids, i);
    AffectedOne(t, ids, i, from);
    MoveInsert(t, Elements(ids[..i]), ids[i], from, to);
  }

  lemma ElementsOne(ids: seq<string>, i: nat)
    requires i < |ids|
    ensures Elements(ids[..i + 1]) == Elements(ids[..i]) + {ids[i]}
  {
    assert ids[..i + 1] == ids[..i] + [ids[i]];
  }

  lemma AffectedOne(t: Table, ids: seq<string>, i: nat, from: Status)
    requires i < |ids|
    ensures var a, id := Affected(t, ids[..i], from), ids[i];
            if id in t && t[id].status == from && id !in Elements(ids[..i])
            then id !in a && Affected(t, ids[..i + 1], from) == a + {id}
            else Affected(t, ids[..i + 1], from) == a
  {
    assert ids[..i + 1] == ids[..i] + [ids[i]];
  }

  lemma MoveInsert(t: Table, done: set<string>, id: string, from: Status, to: Status)
    requires from != to
    ensures var m := Move(t, done, from, to);
            && (id in m && m[id].status == from <==> id in t && t[id].status == from && id !in done)
            && Move(t, done + {id}, from, to)
               == if id in m && m[id].status == from then m[id := m[id].(status := to)] else m
  {
  }
}
