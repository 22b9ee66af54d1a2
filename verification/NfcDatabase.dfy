/**
  The NFC tables as an object that is changed in place, statement by statement. Every method is one
  SQL transaction: it ends in the state the ledger's functions describe, or it rolls back.
 */
module NfcDatabase {
  import opened Common
  import opened Text
  import opened Rows
  import opened NfcLedger
  import Conservation = NfcConservation
  import Exposure = NfcExposure
  import Reconciliation = NfcReconciliation

  // The books balance, settlements and captures agree, reservations and holds agree.
  ghost predicate Good(db: Db) {
    Conservation.Inv(db) && Exposure.Matched(db)
  }

  class Database {
    var balances: map<Key, Balance>
    var funded: map<Key, int>
    var tokens: map<string, Token>
    var auths: seq<Auth>
    var reservations: seq<Reservation>
    var settlements: seq<Settlement>
    var snapshots: seq<Snapshot>

    function Tables(): Db
      reads this
    {
      Db(balances, funded, tokens, auths, reservations, settlements, snapshots)
    }

    ghost predicate Valid()
      reads this
    {
      Good(Tables())
    }

    constructor ()
      ensures Valid() && Tables() == EMPTY
    {
      balances, funded, tokens, auths, reservations, settlements, snapshots := map[], map[], map[], [], [], [], [];
    }

    method Rollback(before: Db)
      modifies this
      ensures Tables() == before
    {
      balances, funded, tokens := before.balances, before.funded, before.tokens;
      auths, reservations := before.auths, before.reservations;
      settlements, snapshots := before.settlements, before.snapshots;
    }

    method AddBalance(wallet: string, network: string, asset: string, delta: int) returns (ok: bool)
      requires Valid()
      modifies this
      ensures Valid() && Tables() == Fund(old(Tables()), wallet, network, asset, delta)
      ensures ok == (delta > 0)
    {
      hide Good, Lower, Upper, Trim, NormalNetwork, FirstNonEmpty;
      FundGood(Tables(), wallet, network, asset, delta);
      ok := delta > 0;
      if ok {
        var k := Key(Lower(Trim(wallet)), NormalNetwork(network), Upper(FirstNonEmpty(asset, "USDT")));
        var b := Get(balances, k, Balance(0, 0));
        balances := balances[k := b.(available := b.available + delta)];
        funded := funded[k := Get(funded, k, 0) + delta];
      }
    }

    method LockBalance(k: Key, amount: int)
      requires k in balances
      modifies this`balances
      ensures balances == old(balances)[k := Balance(old(balances)[k].available - amount, old(balances)[k].locked + amount)]
    {
      var b := balances[k];
      balances := balances[k := Balance(b.available - amount, b.locked + amount)];
    }

    // AuthorizeNFCPayment.
    method AuthorizePayment(in_: AuthorizeInput, now: int, lockFree: bool) returns (outcome: Outcome)
      requires Valid()
      modifies this
      ensures Valid() && (Tables(), outcome) == Authorize(old(Tables()), in_, now, lockFree)
    {
      hide Good, LiquidityAvailable, SamePayload, NormalNetwork, Trim, Lower, Find, NewRow, RowAccepted, Earlier, UsdtKey;
      AuthorizeGood(Tables(), in_, now, lockFree);
      var before := Tables();
      var earlier := Earlier(auths, Trim(in_.terminal), Trim(in_.idempotencyKey));
      if earlier >= 0 {
        outcome := if SamePayload(auths[earlier], in_) then Done(auths[earlier], true) else Failed(PayloadMismatch);
        return;
      }
      var status, reason := Declined, "invalid_token";
      if in_.tokenId in tokens && tokens[in_.tokenId].hash == in_.tokenHash {
        var token := tokens[in_.tokenId];
        if !token.active || now >= token.expiresAt {
          reason := "token_expired_or_revoked";
        } else if Lower(token.wallet) != Lower(in_.wallet) || NormalNetwork(token.network) != NormalNetwork(in_.network) {
          reason := "token_wallet_mismatch";
        } else {
          tokens := tokens[in_.tokenId := token.(active := false)];
          var k := UsdtKey(in_.wallet, in_.network);
          if k !in balances || balances[k].available < in_.required {
            status, reason := RequiresFunding, "insufficient_usdt";
          } else if in_.policy && !LiquidityAvailable(before, in_.amount, in_.maxAge, now, lockFree) {
            reason := "efi_treasury_liquidity_unavailable";
          } else {
            LockBalance(k, in_.required);
            status, reason := Approved, "approved";
          }
        }
      }
      var row := NewRow(in_, status, reason);
      if !RowAccepted(before, row) {
        Rollback(before);
        outcome := Failed(InsertRejected);
        return;
      }
      auths := auths + [row];
      if status.Approved? && in_.policy && Find(reservations, ReservationAuth, in_.id) < 0 {
        reservations := reservations + [Reservation(in_.id, in_.amount, Active)];
      }
      outcome := Done(row, false);
    }

    // The guarded update of the locked column; reports whether a row matched.
    method ReleaseLocked(k: Key, amount: int, refund: int) returns (matched: bool)
      modifies this`balances
      ensures matched == (k in old(balances) && old(balances)[k].locked >= amount)
      ensures balances == if matched then old(balances)[k := Balance(old(balances)[k].available + refund, old(balances)[k].locked - amount)]
                          else old(balances)
    {
      matched := k in balances && balances[k].locked >= amount;
      if matched {
        var b := balances[k];
        balances := balances[k := Balance(b.available + refund, b.locked - amount)];
      }
    }

    // captureNFCAuthorization; the missing lock is never reported.
    method CapturePayment(id: string, settlementId: string) returns (outcome: Outcome)
      requires Valid()
      modifies this
      ensures Valid() && (Tables(), outcome) == Capture(old(Tables()), id, settlementId)
      ensures outcome != Failed(NoLockedBalance)
    {
      hide Good, Find, UsdtKey, CreateSettlement, SetStatus, CloseReservation;
      CaptureGood(Tables(), id, settlementId);
      var before := Tables();
      var i := Find(auths, AuthId, id);
      if i < 0 {
        return Failed(NotFound);
      }
      var a := auths[i];
      if !a.status.Captured? && !a.status.Approved? {
        return Failed(NotApproved);
      }
      if a.status.Approved? {
        var matched := ReleaseLocked(AuthKey(a), a.required, 0);
        if !matched {
          return Failed(NoLockedBalance);
        }
        auths := SetStatus(auths, i, Captured, a.reason);
        reservations := CloseReservation(reservations, id, Consumed);
      }
      var rows := CreateSettlement(settlements, settlementId, a);
      if rows.Err? {
        Rollback(before);
        return Failed(rows.error);
      }
      settlements := rows.value;
      outcome := Done(a.(status := Captured), a.status.Captured?);
    }

    // finishNFCAuthorization with the final status reversed.
    method ReversePayment(id: string) returns (outcome: Outcome)
      requires Valid()
      modifies this
      ensures Valid() && (Tables(), outcome) == Reverse(old(Tables()), id)
      ensures outcome != Failed(NoLockedBalance)
    {
      hide Good, Find, UsdtKey, SetStatus, CloseReservation;
      ReverseGood(Tables(), id);
      var i := Find(auths, AuthId, id);
      if i < 0 {
        return Failed(NotFound);
      }
      var a := auths[i];
      if a.status.Reversed? {
        return Done(a, true);
      }
      if !a.status.Approved? {
        return Failed(NotApproved);
      }
      var matched := ReleaseLocked(AuthKey(a), a.required, a.required);
      if !matched {
        return Failed(NoLockedBalance);
      }
      auths := SetStatus(auths, i, Reversed, a.reason);
      reservations := CloseReservation(reservations, a.id, Released);
      outcome := Done(a.(status := Reversed), false);
    }

    // ExpireNFCHolds over the rows its query returned: every guarded balance update matches, so all
    // of them expire.
    method ExpireHolds(batch: seq<string>, limit: int, now: int)
      requires Valid() && Selectable(Tables(), batch, limit, now)
      modifies this
      ensures Valid() && Tables() == Expire(old(Tables()), batch, limit, now)
      ensures ExpireAll(old(Tables()), batch) == Some(Tables())
    {
      hide Good, Find, UsdtKey, Selectable, ExpireAll, SetStatus, CloseReservation;
      ExpireGood(Tables(), batch, limit, now);
      var before := Tables();
      var n := 0;
      while n < |batch|
        invariant 0 <= n <= |batch|
        invariant ExpireAll(before, batch) == ExpireAll(Tables(), batch[n..])
      {
        ghost var now_ := Tables();
        ExpireUnfold(now_, batch[n..]);
        assert batch[n..][1..] == batch[n + 1..];
        var i := Find(auths, AuthId, batch[n]);
        var a := auths[i];
        var matched := ReleaseLocked(AuthKey(a), a.required, a.required);
        assert matched;
        auths := SetStatus(auths, i, Expired, "hold_expired");
        reservations := CloseReservation(reservations, a.id, Released);
        assert Tables() == GiveBack(now_, i, Expired, "hold_expired");
        n := n + 1;
      }
      ExpireDone(Tables(), batch[n..]);
    }

    // One guarded UPDATE of a settlement row.
    method UpdateSettlement(id: string, op: SettlementOp)
      requires Valid()
      modifies this`settlements
      ensures Valid() && Tables() == Settle(old(Tables()), id, op)
    {
      hide Good, Find, ApplyOp;
      SettleGood(Tables(), id, op);
      var k := Find(settlements, SettlementId, id);
      if k >= 0 {
        settlements := settlements[k := ApplyOp(settlements[k], op)];
      }
    }

    // The figures written into a treasury snapshot.
    method StoreTreasurySnapshot(provider: string, available: int, buffer: int, now: int) returns (effective: int)
      requires Valid()
      modifies this`snapshots
      ensures Valid() && Tables() == StoreSnapshot(old(Tables()), provider, available, buffer, now)
      ensures effective == available - NfcLedger.Exposure(old(Tables())) - buffer
    {
      hide Good, Trim, FirstNonEmpty, Sum;
      SnapshotGood(Tables(), provider, available, buffer, now);
      var reserved := Total(reservations, ActiveWeight);
      var projected := Total(settlements, OpenWeight);
      effective := available - reserved - projected - buffer;
      snapshots := snapshots + [Snapshot(Trim(FirstNonEmpty(provider, "efi")), available, buffer, now)];
    }
  }

  // SELECT COALESCE(SUM(...), 0)
  method Total<T>(rows: seq<T>, weight: T -> int) returns (sum: int)
    ensures sum == Sum(rows, weight)
  {
    sum := 0;
    for i := 0 to |rows|
      invariant sum == Sum(rows[..i], weight)
    {
      assert rows[..i + 1] == rows[..i] + [rows[i]];
      SumAppend(rows[..i], rows[i], weight);
      sum := sum + weight(rows[i]);
    }
    assert rows[..|rows|] == rows;
  }

  // Transactions that leave the payment tables alone keep them matched.
  lemma QuietKeeps(db: Db, db': Db)
    requires Exposure.Matched(db)
    requires db'.auths == db.auths && db'.settlements == db.settlements && db'.reservations == db.reservations
    ensures Exposure.Matched(db')
  {
    Reconciliation.SameTablesKeep(db, db');
    hide Exposure.Owned, Reconciliation.Linked;
  }

  lemma FundGood(db: Db, wallet: string, network: string, asset: string, delta: int)
    requires Good(db)
    ensures Good(Fund(db, wallet, network, asset, delta))
  {
    hide Conservation.Inv, Exposure.Matched, Exposure.AllCovered, NormalNetwork, FirstNonEmpty;
    Conservation.FundKeeps(db, wallet, network, asset, delta);
    QuietKeeps(db, Fund(db, wallet, network, asset, delta));
  }

  lemma SnapshotGood(db: Db, provider: string, available: int, buffer: int, now: int)
    requires Good(db)
    ensures Good(StoreSnapshot(db, provider, available, buffer, now))
  {
    hide Conservation.Inv, Exposure.Matched, Exposure.AllCovered, FirstNonEmpty;
    Conservation.SnapshotKeeps(db, provider, available, buffer, now);
    QuietKeeps(db, StoreSnapshot(db, provider, available, buffer, now));
  }

  lemma AuthorizeGood(db: Db, in_: AuthorizeInput, now: int, lockFree: bool)
    requires Good(db)
    ensures Good(Authorize(db, in_, now, lockFree).0)
  {
    hide Conservation.Inv, Exposure.Matched, Exposure.AllCovered, Authorize, NfcLedger.Exposure, Newest;
    Conservation.AuthorizeKeeps(db, in_, now, lockFree);
    Exposure.AuthorizeExposure(db, in_, now, lockFree);
  }

  lemma CaptureGood(db: Db, id: string, settlementId: string)
    requires Good(db)
    ensures Good(Capture(db, id, settlementId).0)
    ensures Capture(db, id, settlementId).1 != Failed(NoLockedBalance)
  {
    hide Conservation.Inv, Exposure.Matched, Exposure.AllCovered, Capture, NfcLedger.Exposure;
    Conservation.CaptureKeeps(db, id, settlementId);
    Exposure.CaptureKeeps(db, id, settlementId);
  }

  lemma ReverseGood(db: Db, id: string)
    requires Good(db)
    ensures Good(Reverse(db, id).0)
    ensures Reverse(db, id).1 != Failed(NoLockedBalance)
  {
    hide Conservation.Inv, Exposure.Matched, Exposure.AllCovered, Reverse, NfcLedger.Exposure;
    Conservation.ReverseKeeps(db, id);
    Exposure.ReverseKeeps(db, id);
  }

  lemma ExpireGood(db: Db, batch: seq<string>, limit: int, now: int)
    requires Good(db)
    ensures Good(Expire(db, batch, limit, now))
    ensures Selectable(db, batch, limit, now) ==> ExpireAll(db, batch) == Some(Expire(db, batch, limit, now))
  {
    hide Conservation.Inv, Exposure.Matched, Exposure.AllCovered, ExpireAll, Selectable, NfcLedger.Exposure;
    Conservation.ExpireKeeps(db, batch, limit, now);
    Exposure.ExpireAllKeeps(db, batch);
  }

  lemma SettleGood(db: Db, id: string, op: SettlementOp)
    requires Good(db)
    ensures Good(Settle(db, id, op))
  {
    hide Conservation.Inv, Exposure.Matched, Exposure.AllCovered, Settle, NfcLedger.Exposure;
    Conservation.SettleKeeps(db, id, op);
    Exposure.SettleKeeps(db, id, op);
  }

  lemma ExpireUnfold(db: Db, batch: seq<string>)
    requires batch != [] && ExpireAll(db, batch).Some?
    ensures var i := Find(db.auths, AuthId, batch[0]);
            && i >= 0 && HasLocked(db, db.auths[i])
            && ExpireAll(db, batch) == ExpireAll(GiveBack(db, i, Expired, "hold_expired"), batch[1..])
  {
    hide HasLocked, GiveBack, Find;
  }

  lemma ExpireDone(db: Db, batch: seq<string>)
    requires batch == []
    ensures ExpireAll(db, batch) == Some(db)
  {
  }
}
