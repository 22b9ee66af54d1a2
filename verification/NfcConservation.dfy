/** Money is conserved by the NFC ledger: every run keeps the books of every wallet balanced. */
module NfcConservation {
  import opened Common
  import opened Text
  import opened Rows
  import opened NfcLedger

  function HeldAt(k: Key): Auth -> int {
    (a: Auth) => if a.status.Approved? && AuthKey(a) == k then a.required else 0
  }

  function CapturedAt(k: Key): Auth -> int {
    (a: Auth) => if a.status.Captured? && AuthKey(a) == k then a.required else 0
  }

  function BalanceAt(db: Db, k: Key): Balance {
    Get(db.balances, k, Balance(0, 0))
  }

  // What was ever funded is available, locked or captured, and what is locked is held by approved
  // authorisations.
  ghost predicate Balanced(db: Db, k: Key) {
    var b := BalanceAt(db, k);
    && b.available >= 0
    && b.locked == Sum(db.auths, HeldAt(k))
    && Get(db.funded, k, 0) == b.available + b.locked + Sum(db.auths, CapturedAt(k))
  }

  ghost predicate RowsSound(db: Db) {
    && Unique(db.auths, AuthId)
    && (forall i :: 0 <= i < |db.auths| ==> db.auths[i].required > 0 && db.auths[i].amount > 0)
    && (forall t :: t in db.tokens ==> Trimmed(db.tokens[t].wallet))
  }

  ghost predicate Inv(db: Db) {
    RowsSound(db) && forall k :: Balanced(db, k)
  }

  // ---- normalisation agrees with itself ----

  lemma NetworkStable(n: string)
    ensures NormalNetwork(NormalNetwork(n)) == NormalNetwork(n)
  {
    var u := Upper(Trim(n));
    TrimIsTrimmed(n);
    CaseKeepsTrimmed(Trim(n));
    TrimIsTrimmed(u);
    hide Upper, Trim;
    BscStable();
  }

  lemma BscStable()
    ensures NormalNetwork("BSC") == "BSC"
  {
    TrimIsTrimmed("BSC");
    assert Upper("BSC") == "BSC";
  }

  // The row written for a payment is charged to the balance that was locked for it: surrounding
  // blanks in the wallet would already have failed the token comparison.
  lemma KeyStable(wallet: string, network: string, tokenWallet: string)
    requires Trimmed(tokenWallet) && Lower(tokenWallet) == Lower(wallet)
    ensures UsdtKey(Lower(Trim(wallet)), NormalNetwork(network)) == UsdtKey(wallet, network)
  {
    CaseKeepsTrimmed(wallet);
    CaseKeepsTrimmed(tokenWallet);
    TrimIsTrimmed(wallet);
    LowerIdempotent(wallet);
    NetworkStable(network);
  }

  // ---- steps ----

  lemma HeldCovers(db: Db, i: nat)
    requires Inv(db) && i < |db.auths| && db.auths[i].status.Approved?
    ensures HasLocked(db, db.auths[i])
  {
    var k := AuthKey(db.auths[i]);
    assert Balanced(db, k);
    SumAtLeast(db.auths, i, HeldAt(k));
    hide Sum;
  }

  lemma FundKeeps(db: Db, wallet: string, network: string, asset: string, delta: int)
    requires Inv(db)
    ensures Inv(Fund(db, wallet, network, asset, delta))
  {
    hide NormalNetwork, FirstNonEmpty, Lower, Upper, Trim;
    var db' := Fund(db, wallet, network, asset, delta);
    forall k
      ensures Balanced(db', k)
    {
      assert Balanced(db, k);
    }
  }

  lemma StoreTokenKeeps(db: Db, id: string, hash: string, wallet: string, network: string, expiresAt: int)
    requires Inv(db)
    ensures Inv(StoreToken(db, id, hash, wallet, network, expiresAt))
  {
    TrimIsTrimmed(wallet);
    CaseKeepsTrimmed(Trim(wallet));
    hide NormalNetwork, Lower, Upper, Trim, Trimmed;
    var db' := StoreToken(db, id, hash, wallet, network, expiresAt);
    forall k
      ensures Balanced(db', k)
    {
      assert Balanced(db, k);
    }
  }

  // A change of one row's status moves its amount from one column to another.
  lemma StatusMoves(auths: seq<Auth>, i: nat, status: AuthStatus, reason: string, k: Key)
    requires i < |auths| && auths[i].status.Approved?
    ensures var a := auths[i];
            var d := if AuthKey(a) == k then a.required else 0;
            var rows := SetStatus(auths, i, status, reason);
            && Sum(rows, HeldAt(k)) == Sum(auths, HeldAt(k)) - (if status.Approved? then 0 else d)
            && Sum(rows, CapturedAt(k)) == Sum(auths, CapturedAt(k)) + (if status.Captured? then d else 0)
  {
    var row := auths[i].(status := status, reason := reason);
    SumUpdate(auths, i, row, HeldAt(k));
    SumUpdate(auths, i, row, CapturedAt(k));
    hide Sum, UsdtKey;
    assert AuthKey(row) == AuthKey(auths[i]);
  }

  lemma SetStatusSound(db: Db, i: nat, status: AuthStatus, reason: string)
    requires RowsSound(db) && i < |db.auths|
    ensures RowsSound(db.(auths := SetStatus(db.auths, i, status, reason)))
  {
    UniqueUpdate(db.auths, i, db.auths[i].(status := status, reason := reason), AuthId);
  }

  lemma GiveBackKeeps(db: Db, i: nat, status: AuthStatus, reason: string)
    requires Inv(db) && i < |db.auths| && db.auths[i].status.Approved? && HasLocked(db, db.auths[i])
    requires !status.Approved? && !status.Captured?
    ensures Inv(GiveBack(db, i, status, reason))
  {
    hide Sum, UsdtKey, CloseReservation;
    SetStatusSound(db, i, status, reason);
    var db' := GiveBack(db, i, status, reason);
    forall k
      ensures Balanced(db', k)
    {
      assert Balanced(db, k);
      StatusMoves(db.auths, i, status, reason, k);
    }
    hide SetStatus;
  }

  lemma CaptureKeeps(db: Db, id: string, settlementId: string)
    requires Inv(db)
    ensures Inv(Capture(db, id, settlementId).0)
    ensures Capture(db, id, settlementId).1 != Failed(NoLockedBalance)
  {
    hide Sum, UsdtKey, CloseReservation, CreateSettlement, Find;
    var i := Find(db.auths, AuthId, id);
    var db' := Capture(db, id, settlementId).0;
    if i >= 0 && db.auths[i].status.Approved? {
      HeldCovers(db, i);
      SetStatusSound(db, i, Captured, db.auths[i].reason);
      forall k
        ensures Balanced(db', k)
      {
        assert Balanced(db, k);
        StatusMoves(db.auths, i, Captured, db.auths[i].reason, k);
      }
    } else {
      forall k
        ensures Balanced(db', k)
      {
        assert Balanced(db, k);
      }
    }
  }

  lemma ReverseKeeps(db: Db, id: string)
    requires Inv(db)
    ensures Inv(Reverse(db, id).0)
    ensures Reverse(db, id).1 != Failed(NoLockedBalance)
  {
    hide Inv, GiveBack, HasLocked;
    var i := Find(db.auths, AuthId, id);
    if i >= 0 && db.auths[i].status.Approved? {
      HeldCovers(db, i);
      GiveBackKeeps(db, i, Reversed, db.auths[i].reason);
    }
  }

  // What is still approved in a batch after its first row was given back.
  lemma BatchRest(db: Db, batch: seq<string>, db': Db)
    requires Unique(db.auths, AuthId) && batch != []
    requires forall i, j :: 0 <= i < j < |batch| ==> batch[i] != batch[j]
    requires forall j :: 0 <= j < |batch| ==> ApprovedId(db, batch[j])
    requires var i := Find(db.auths, AuthId, batch[0]);
             i >= 0 && db'.auths == SetStatus(db.auths, i, Expired, "hold_expired")
    ensures forall j :: 0 <= j < |batch[1..]| ==> ApprovedId(db', batch[1..][j])
  {
    var i := Find(db.auths, AuthId, batch[0]);
    forall j | 0 <= j < |batch[1..]|
      ensures ApprovedId(db', batch[1..][j])
    {
      var id := batch[j + 1];
      assert ApprovedId(db, id);
      FindUpdate(db.auths, i, db'.auths[i], AuthId, id);
    }
  }

  predicate ApprovedId(db: Db, id: string) {
    var k := Find(db.auths, AuthId, id);
    k >= 0 && db.auths[k].status.Approved?
  }

  lemma {:induction false} ExpireAllKeeps(db: Db, batch: seq<string>)
    requires Inv(db)
    requires forall i, j :: 0 <= i < j < |batch| ==> batch[i] != batch[j]
    requires forall j :: 0 <= j < |batch| ==> ApprovedId(db, batch[j])
    ensures ExpireAll(db, batch).Some? && Inv(ExpireAll(db, batch).value)
    decreases batch
  {
    if batch != [] {
      assert Unique(db.auths, AuthId);
      hide Inv, HasLocked, Find, Unique;
      assert ApprovedId(db, batch[0]);
      var i := Find(db.auths, AuthId, batch[0]);
      HeldCovers(db, i);
      GiveBackKeeps(db, i, Expired, "hold_expired");
      var db' := GiveBack(db, i, Expired, "hold_expired");
      BatchRest(db, batch, db');
      ExpireAllKeeps(db', batch[1..]);
    }
  }

  // An expiry batch never fails: the rows it selected all have their amounts locked.
  lemma ExpireKeeps(db: Db, batch: seq<string>, limit: int, now: int)
    requires Inv(db)
    ensures Inv(Expire(db, batch, limit, now))
    ensures Selectable(db, batch, limit, now) ==> ExpireAll(db, batch).Some?
  {
    hide Inv, Find, ExpireAll;
    if Selectable(db, batch, limit, now) {
      forall j | 0 <= j < |batch|
        ensures ApprovedId(db, batch[j])
      {
        assert Due(db.auths[Find(db.auths, AuthId, batch[j])], now);
      }
      ExpireAllKeeps(db, batch);
    }
  }

  lemma AppendRow(db: Db, row: Auth, k: Key)
    ensures Sum(db.auths + [row], HeldAt(k)) == Sum(db.auths, HeldAt(k)) + HeldAt(k)(row)
    ensures Sum(db.auths + [row], CapturedAt(k)) == Sum(db.auths, CapturedAt(k)) + CapturedAt(k)(row)
  {
    hide AuthKey;
    SumAppend(db.auths, row, HeldAt(k));
    SumAppend(db.auths, row, CapturedAt(k));
  }

  lemma AdmitSound(db: Db, in_: AuthorizeInput, v: Verdict)
    requires RowsSound(db) && RowAccepted(db, NewRow(in_, v.status, v.reason))
    ensures var row := NewRow(in_, v.status, v.reason);
            var tokens := if v.revoke then Revoke(db.tokens, in_.tokenId) else db.tokens;
            RowsSound(db.(auths := db.auths + [row], tokens := tokens))
  {
    hide Trimmed, NormalNetwork, Trim, Lower;
    UniqueAppend(db.auths, NewRow(in_, v.status, v.reason), AuthId);
  }

  lemma AuthorizeKeeps(db: Db, in_: AuthorizeInput, now: int, lockFree: bool)
    requires Inv(db)
    ensures Inv(Authorize(db, in_, now, lockFree).0)
  {
    hide Sum, Find, LiquidityAvailable, SamePayload, Earlier, NormalNetwork, Trim, Lower, Trimmed;
    var v := Judge(db, in_, now, lockFree);
    var row := NewRow(in_, v.status, v.reason);
    var db' := Authorize(db, in_, now, lockFree).0;
    if db' != db {
      AdmitSound(db, in_, v);
      if v.status.Approved? {
        KeyStable(in_.wallet, in_.network, db.tokens[in_.tokenId].wallet);
        assert AuthKey(row) == UsdtKey(in_.wallet, in_.network);
      }
      forall k
        ensures Balanced(db', k)
      {
        assert Balanced(db, k);
        AppendRow(db, row, k);
      }
    }
  }

  lemma SettleKeeps(db: Db, id: string, op: SettlementOp)
    requires Inv(db)
    ensures Inv(Settle(db, id, op))
  {
    hide Sum, ApplyOp;
    forall k
      ensures Balanced(Settle(db, id, op), k)
    {
      assert Balanced(db, k);
    }
  }

  lemma SnapshotKeeps(db: Db, provider: string, available: int, buffer: int, now: int)
    requires Inv(db)
    ensures Inv(StoreSnapshot(db, provider, available, buffer, now))
  {
    hide Sum;
    forall k
      ensures Balanced(StoreSnapshot(db, provider, available, buffer, now), k)
    {
      assert Balanced(db, k);
    }
  }

  lemma StepKeeps(db: Db, step: Step)
    requires Inv(db)
    ensures Inv(Next(db, step))
  {
    hide Inv, Fund, StoreToken, StoreSnapshot, Authorize, Capture, Reverse, Expire, Settle;
    match step
    case DoFund(w, n, a, d) => FundKeeps(db, w, n, a, d);
    case DoStoreToken(t, h, w, n, e) => StoreTokenKeeps(db, t, h, w, n, e);
    case DoSnapshot(p, a, b, o) => SnapshotKeeps(db, p, a, b, o);
    case DoAuthorize(in_, at, free) => AuthorizeKeeps(db, in_, at, free);
    case DoCapture(id, sid) => CaptureKeeps(db, id, sid);
    case DoReverse(id) => ReverseKeeps(db, id);
    case DoExpire(batch, limit, now) => ExpireKeeps(db, batch, limit, now);
    case DoSettle(id, op) => SettleKeeps(db, id, op);
  }

  lemma {:induction false} RunKeeps(db: Db, steps: seq<Step>)
    requires Inv(db)
    ensures Inv(Run(db, steps))
    decreases steps
  {
    hide Inv, Next;
    if steps != [] {
      StepKeeps(db, steps[0]);
      RunKeeps(Next(db, steps[0]), steps[1..]);
    }
  }

  // In every reachable state the books of every wallet, network and asset balance.
  lemma Conservation(steps: seq<Step>, k: Key)
    ensures Balanced(Run(EMPTY, steps), k)
  {
    assert Inv(EMPTY);
    RunKeeps(EMPTY, steps);
    hide Run, Balanced;
  }

  // The "no matching locked balance" errors of capture, reversal and expiry cannot be reached.
  lemma LockedAlwaysMatches(steps: seq<Step>, id: string, settlementId: string, batch: seq<string>, limit: int, now: int)
    ensures var db := Run(EMPTY, steps);
            && Capture(db, id, settlementId).1 != Failed(NoLockedBalance)
            && Reverse(db, id).1 != Failed(NoLockedBalance)
            && (Selectable(db, batch, limit, now) ==> ExpireAll(db, batch).Some?)
  {
    assert Inv(EMPTY);
    RunKeeps(EMPTY, steps);
    hide Run, Inv, Capture, Reverse, ExpireAll, Selectable;
    var db := Run(EMPTY, steps);
    CaptureKeeps(db, id, settlementId);
    ReverseKeeps(db, id);
    ExpireKeeps(db, batch, limit, now);
  }
}
