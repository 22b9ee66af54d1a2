/** The settlement table always agrees with the captured authorisations, so reconciliation finds nothing. */
module NfcReconciliation {
  import opened Common
  import opened Text
  import opened Rows
  import opened NfcLedger

  // ---- the detectors of detectNFCSettlementIssues ----

  datatype Issue =
    | CapturedWithoutSettlement(authId: string)
    | SettlementWithoutCapturedAuth(settlementId: string)
    | ConfirmedWithoutE2e(settlementId: string)
    | DuplicateSettlementForAuth(authId: string)
    | SettlementMerchantMismatch(settlementId: string)

  // LEFT JOIN ... WHERE a.status = 'captured' AND ms.id IS NULL
  ghost predicate LacksSettlement(db: Db, a: Auth) {
    a.status.Captured? && forall s :: s in db.settlements ==> s.authId != a.id
  }

  // LEFT JOIN ... WHERE a.id IS NULL OR a.status <> 'captured'
  ghost predicate LacksCapture(db: Db, s: Settlement) {
    || (forall a :: a in db.auths ==> a.id != s.authId)
    || (exists a :: a in db.auths && a.id == s.authId && !a.status.Captured?)
  }

  // COALESCE(provider_e2e_id, provider_reference, txid, '') = ''
  predicate LacksProof(s: Settlement) {
    s.status.Confirmed? &&
    (if s.e2eId.Some? then s.e2eId.value
     else if s.reference.Some? then s.reference.value
     else if s.txid.Some? then s.txid.value
     else "") == ""
  }

  // GROUP BY authorization_id HAVING COUNT(*) > 1
  ghost predicate Duplicated(db: Db, id: string) {
    exists i, j :: 0 <= i < j < |db.settlements| && db.settlements[i].authId == id && db.settlements[j].authId == id
  }

  // JOIN ... WHERE a.merchant_id <> ms.merchant_id
  ghost predicate MerchantDiffers(db: Db, s: Settlement) {
    exists a :: a in db.auths && a.id == s.authId && a.merchant != s.merchant
  }

  ghost function Issues(db: Db): set<Issue> {
    (set a | a in db.auths && LacksSettlement(db, a) :: CapturedWithoutSettlement(a.id))
    + (set s | s in db.settlements && LacksCapture(db, s) :: SettlementWithoutCapturedAuth(s.id))
    + (set s | s in db.settlements && LacksProof(s) :: ConfirmedWithoutE2e(s.id))
    + (set s | s in db.settlements && Duplicated(db, s.authId) :: DuplicateSettlementForAuth(s.authId))
    + (set s | s in db.settlements && MerchantDiffers(db, s) :: SettlementMerchantMismatch(s.id))
  }

  // ---- the invariant ----

  // The settlement belongs to a captured authorisation and repeats its merchant, amount and fee.
  predicate Backed(auths: seq<Auth>, s: Settlement) {
    var k := Find(auths, AuthId, s.authId);
    && k >= 0 && auths[k].status.Captured?
    && auths[k].merchant == s.merchant && auths[k].amount == s.amount && auths[k].fee == s.fee
  }

  // A provider id, once present, is not empty; a confirmed settlement carries one or a reference.
  predicate Proven(s: Settlement) {
    && (s.e2eId.Some? ==> s.e2eId.value != "")
    && (s.status.Confirmed? ==> s.e2eId.Some? || (s.reference.Some? && s.reference.value != ""))
  }

  predicate Settled(db: Db, a: Auth) {
    a.status.Captured? ==> Find(db.settlements, SettlementAuth, a.id) >= 0
  }

  ghost predicate Linked(db: Db) {
    && Unique(db.auths, AuthId)
    && Unique(db.settlements, SettlementAuth)
    && Unique(db.settlements, SettlementId)
    && (forall i :: 0 <= i < |db.auths| ==> Settled(db, db.auths[i]) && db.auths[i].amount > 0)
    && (forall j :: 0 <= j < |db.settlements| ==> Backed(db.auths, db.settlements[j]) && Proven(db.settlements[j]))
  }

  // ---- no detector fires on a linked database ----

  lemma LinkedHasNoIssues(db: Db)
    requires Linked(db)
    ensures Issues(db) == {}
  {
    forall a | a in db.auths
      ensures !LacksSettlement(db, a)
    {
      AuthSettled(db, a);
    }
    forall s | s in db.settlements
      ensures !LacksCapture(db, s) && !MerchantDiffers(db, s) && !LacksProof(s)
    {
      SettlementBacked(db, s);
    }
    forall id
      ensures !Duplicated(db, id)
    {
      NotDuplicated(db, id);
    }
    hide Linked, LacksSettlement, LacksCapture, LacksProof, Duplicated, MerchantDiffers;
  }

  lemma AuthSettled(db: Db, a: Auth)
    requires Linked(db) && a in db.auths
    ensures !LacksSettlement(db, a)
  {
    var i :| 0 <= i < |db.auths| && db.auths[i] == a;
    assert Settled(db, db.auths[i]);
    if a.status.Captured? {
      var k := Find(db.settlements, SettlementAuth, a.id);
      assert db.settlements[k] in db.settlements && db.settlements[k].authId == a.id;
    }
  }

  lemma SettlementBacked(db: Db, s: Settlement)
    requires Linked(db) && s in db.settlements
    ensures !LacksCapture(db, s) && !MerchantDiffers(db, s) && !LacksProof(s)
  {
    var j :| 0 <= j < |db.settlements| && db.settlements[j] == s;
    assert Backed(db.auths, db.settlements[j]) && Proven(db.settlements[j]);
    var k := Find(db.auths, AuthId, s.authId);
    assert db.auths[k] in db.auths && db.auths[k].id == s.authId;
    forall a | a in db.auths && a.id == s.authId
      ensures a == db.auths[k]
    {
      var i :| 0 <= i < |db.auths| && db.auths[i] == a;
      UniqueFind(db.auths, AuthId, i);
    }
    hide Find;
  }

  lemma NotDuplicated(db: Db, id: string)
    requires Linked(db)
    ensures !Duplicated(db, id)
  {
    forall i, j | 0 <= i < j < |db.settlements|
      ensures db.settlements[i].authId != db.settlements[j].authId
    {
      assert SettlementAuth(db.settlements[i]) != SettlementAuth(db.settlements[j]);
    }
  }

  // The detectors are complete: a database without issues has a settlement for every captured
  // authorisation, a captured authorisation of the same merchant for every settlement, no two
  // settlements for one authorisation, and a proof for every confirmation.
  lemma CleanMeansMatched(db: Db)
    requires Issues(db) == {}
    ensures forall a :: a in db.auths && a.status == Captured ==> exists s :: s in db.settlements && s.authId == a.id
    ensures forall s :: s in db.settlements ==>
              exists a :: a in db.auths && a.id == s.authId && a.status == Captured && a.merchant == s.merchant
    ensures forall i, j :: 0 <= i < j < |db.settlements| ==> db.settlements[i].authId != db.settlements[j].authId
    ensures forall s :: s in db.settlements && s.status == Confirmed ==>
              s.e2eId.GetOr(s.reference.GetOr(s.txid.GetOr(""))) != ""
  {
    forall a | a in db.auths && a.status == Captured
      ensures exists s :: s in db.settlements && s.authId == a.id
    {
      assert CapturedWithoutSettlement(a.id) !in Issues(db);
      assert !LacksSettlement(db, a);
    }
    forall s | s in db.settlements
      ensures exists a :: a in db.auths && a.id == s.authId && a.status == Captured && a.merchant == s.merchant
      ensures s.status == Confirmed ==> s.e2eId.GetOr(s.reference.GetOr(s.txid.GetOr(""))) != ""
      ensures !Duplicated(db, s.authId)
    {
      assert SettlementWithoutCapturedAuth(s.id) !in Issues(db) && SettlementMerchantMismatch(s.id) !in Issues(db);
      assert ConfirmedWithoutE2e(s.id) !in Issues(db) && DuplicateSettlementForAuth(s.authId) !in Issues(db);
      assert !LacksCapture(db, s) && !MerchantDiffers(db, s) && !LacksProof(s);
      var a :| a in db.auths && a.id == s.authId;
    }
    forall i, j | 0 <= i < j < |db.settlements|
      ensures db.settlements[i].authId != db.settlements[j].authId
    {
      assert db.settlements[i] in db.settlements;
      assert !Duplicated(db, db.settlements[i].authId);
    }
  }

  // The detectors are not idle: losing any one settlement row is reported.
  lemma LostRowDetected(db: Db, j: nat)
    requires Linked(db) && j < |db.settlements|
    ensures var rest := db.(settlements := db.settlements[..j] + db.settlements[j + 1..]);
            CapturedWithoutSettlement(db.settlements[j].authId) in Issues(rest)
  {
    var s := db.settlements[j];
    var rest := db.(settlements := db.settlements[..j] + db.settlements[j + 1..]);
    assert Backed(db.auths, s);
    var a := db.auths[Find(db.auths, AuthId, s.authId)];
    assert a in db.auths && a.id == s.authId;
    forall t | t in rest.settlements
      ensures t.authId != a.id
    {
      var i :| 0 <= i < |db.settlements| && i != j && db.settlements[i] == t;
      assert SettlementAuth(db.settlements[i]) != SettlementAuth(db.settlements[j]);
    }
    assert LacksSettlement(rest, a);
    hide Linked, Find, LacksSettlement, LacksCapture, LacksProof, Duplicated, MerchantDiffers;
  }

  // ---- steps ----

  // No settlement names an authorisation that is not captured.
  lemma Unsettled(db: Db, i: nat)
    requires Linked(db) && i < |db.auths| && !db.auths[i].status.Captured?
    ensures Find(db.settlements, SettlementAuth, db.auths[i].id) < 0
  {
    var k := Find(db.settlements, SettlementAuth, db.auths[i].id);
    if k >= 0 {
      assert Backed(db.auths, db.settlements[k]);
      UniqueFind(db.auths, AuthId, i);
    }
  }

  // The status of an approved row may change to anything but captured.
  lemma StatusKeeps(db: Db, i: nat, status: AuthStatus, reason: string, db': Db)
    requires Linked(db) && i < |db.auths| && db.auths[i].status.Approved? && !status.Captured?
    requires db'.auths == SetStatus(db.auths, i, status, reason) && db'.settlements == db.settlements
    ensures Linked(db')
  {
    var row := db'.auths[i];
    UniqueUpdate(db.auths, i, row, AuthId);
    Unsettled(db, i);
    forall n | 0 <= n < |db'.auths|
      ensures Settled(db', db'.auths[n]) && db'.auths[n].amount > 0
    {
      assert Settled(db, db.auths[n]) && db.auths[n].amount > 0;
    }
    forall j | 0 <= j < |db.settlements|
      ensures Backed(db'.auths, db.settlements[j])
    {
      assert Backed(db.auths, db.settlements[j]);
      assert SettlementAuth(db.settlements[j]) != db.auths[i].id;
      FindUpdate(db.auths, i, row, AuthId, db.settlements[j].authId);
    }
    hide Find;
  }

  lemma {:induction false} ExpireAllKeeps(db: Db, batch: seq<string>)
    requires Linked(db)
    ensures ExpireAll(db, batch).Some? ==> Linked(ExpireAll(db, batch).value)
    decreases batch
  {
    hide Linked, HasLocked, SetStatus, CloseReservation;
    if batch != [] {
      var i := Find(db.auths, AuthId, batch[0]);
      if i >= 0 && HasLocked(db, db.auths[i]) && db.auths[i].status.Approved? {
        var db' := GiveBack(db, i, Expired, "hold_expired");
        StatusKeeps(db, i, Expired, "hold_expired", db');
        ExpireAllKeeps(db', batch[1..]);
      }
    }
  }

  lemma ReverseKeeps(db: Db, id: string)
    requires Linked(db)
    ensures Linked(Reverse(db, id).0)
  {
    hide Linked, HasLocked, SetStatus, CloseReservation;
    var i := Find(db.auths, AuthId, id);
    if i >= 0 && HasLocked(db, db.auths[i]) && db.auths[i].status.Approved? {
      StatusKeeps(db, i, Reversed, db.auths[i].reason, Reverse(db, id).0);
    }
  }

  // What an authorisation can do to the tables: nothing, or one new row that is not captured.
  lemma AuthorizeShape(db: Db, in_: AuthorizeInput, now: int, lockFree: bool)
    ensures var db' := Authorize(db, in_, now, lockFree).0;
            && db'.settlements == db.settlements && db'.snapshots == db.snapshots
            && (db'.auths != db.auths || db'.reservations != db.reservations ==>
                  var v := Judge(db, in_, now, lockFree);
                  var row := NewRow(in_, v.status, v.reason);
                  && RowAccepted(db, row) && (v.status.Approved? || v.status.Declined? || v.status.RequiresFunding?)
                  && db'.auths == db.auths + [row]
                  && db'.reservations ==
                     (if v.status.Approved? && in_.policy && Find(db.reservations, ReservationAuth, in_.id) < 0
                      then db.reservations + [Reservation(in_.id, in_.amount, Active)] else db.reservations))
  {
    hide Find, LiquidityAvailable, SamePayload, Earlier, NormalNetwork, Trim, Lower, RowAccepted, Revoke;
  }

  lemma AppendKeeps(db: Db, row: Auth, db': Db)
    requires Linked(db) && Find(db.auths, AuthId, row.id) < 0 && !row.status.Captured? && row.amount > 0
    requires db'.auths == db.auths + [row] && db'.settlements == db.settlements
    ensures Linked(db')
  {
    UniqueAppend(db.auths, row, AuthId);
    forall n | 0 <= n < |db'.auths|
      ensures Settled(db', db'.auths[n]) && db'.auths[n].amount > 0
    {
      if n < |db.auths| {
        assert Settled(db, db.auths[n]) && db.auths[n].amount > 0;
      }
    }
    forall j | 0 <= j < |db.settlements|
      ensures Backed(db'.auths, db.settlements[j])
    {
      assert Backed(db.auths, db.settlements[j]);
      FindAppend(db.auths, row, AuthId, db.settlements[j].authId);
    }
    hide Find;
  }

  lemma AuthorizeKeeps(db: Db, in_: AuthorizeInput, now: int, lockFree: bool)
    requires Linked(db)
    ensures Linked(Authorize(db, in_, now, lockFree).0)
  {
    hide Authorize, Judge, Find, NormalNetwork, Trim, Lower, Unique;
    AuthorizeShape(db, in_, now, lockFree);
    var db' := Authorize(db, in_, now, lockFree).0;
    if db'.auths != db.auths {
      AppendKeeps(db, db'.auths[|db.auths|], db');
    } else {
      SameTablesKeep(db, db');
    }
  }

  lemma SameTablesKeep(db: Db, db': Db)
    requires Linked(db) && db'.auths == db.auths && db'.settlements == db.settlements
    ensures Linked(db')
  {
    hide Find, Backed;
    forall n | 0 <= n < |db'.auths|
      ensures Settled(db', db'.auths[n]) && db'.auths[n].amount > 0
    {
      assert Settled(db, db.auths[n]) && db.auths[n].amount > 0;
    }
  }

  // The other settlements keep their captured authorisations, and the new one has its own.
  lemma InsertedBacked(db: Db, i: nat, id: string, rows: seq<Auth>, s: Settlement)
    requires Linked(db) && i < |db.auths| && db.auths[i].status.Approved?
    requires rows == SetStatus(db.auths, i, Captured, db.auths[i].reason)
    requires s in db.settlements || s == NewSettlement(id, db.auths[i])
    ensures Backed(rows, s) && Proven(s)
  {
    FindUpdate(db.auths, i, rows[i], AuthId, s.authId);
    UniqueFind(db.auths, AuthId, i);
    if s in db.settlements {
      var j :| 0 <= j < |db.settlements| && db.settlements[j] == s;
      assert Backed(db.auths, db.settlements[j]) && Proven(db.settlements[j]);
    }
    hide Find;
  }

  // Every captured authorisation has its settlement in the longer table.
  lemma InsertedSettled(db: Db, i: nat, id: string, db': Db, n: nat)
    requires Linked(db) && i < |db.auths| && n < |db.auths|
    requires db'.auths == SetStatus(db.auths, i, Captured, db.auths[i].reason)
    requires db'.settlements == db.settlements + [NewSettlement(id, db.auths[i])]
    ensures Settled(db', db'.auths[n]) && db'.auths[n].amount > 0
  {
    assert Settled(db, db.auths[n]) && db.auths[n].amount > 0;
    FindAppend(db.settlements, NewSettlement(id, db.auths[i]), SettlementAuth, db'.auths[n].id);
    hide Find, Linked;
  }

  // The row inserted by a capture is the one the captured authorisation needs.
  lemma SettlementInserted(db: Db, i: nat, id: string, db': Db)
    requires Linked(db) && i < |db.auths| && db.auths[i].status.Approved?
    requires Find(db.settlements, SettlementId, id) < 0
    requires db'.auths == SetStatus(db.auths, i, Captured, db.auths[i].reason)
    requires db'.settlements == db.settlements + [NewSettlement(id, db.auths[i])]
    ensures Linked(db')
  {
    hide Find, Backed, Proven, Settled;
    var s := NewSettlement(id, db.auths[i]);
    UniqueUpdate(db.auths, i, db'.auths[i], AuthId);
    Unsettled(db, i);
    UniqueAppend(db.settlements, s, SettlementAuth);
    UniqueAppend(db.settlements, s, SettlementId);
    forall n | 0 <= n < |db'.auths|
      ensures Settled(db', db'.auths[n]) && db'.auths[n].amount > 0
    {
      InsertedSettled(db, i, id, db', n);
    }
    forall j | 0 <= j < |db'.settlements|
      ensures Backed(db'.auths, db'.settlements[j]) && Proven(db'.settlements[j])
    {
      InsertedBacked(db, i, id, db'.auths, db'.settlements[j]);
    }
    hide Unique;
  }

  // A second capture finds its settlement; a first one creates it.
  lemma CaptureShape(db: Db, id: string, settlementId: string)
    requires Linked(db)
    ensures var db' := Capture(db, id, settlementId).0;
            var i := Find(db.auths, AuthId, id);
            db' == db || (
              && i >= 0 && db.auths[i].status.Approved?
              && Find(db.settlements, SettlementId, settlementId) < 0
              && db'.snapshots == db.snapshots
              && db'.auths == SetStatus(db.auths, i, Captured, db.auths[i].reason)
              && db'.settlements == db.settlements + [NewSettlement(settlementId, db.auths[i])]
              && db'.reservations == CloseReservation(db.reservations, id, Consumed))
  {
    var i := Find(db.auths, AuthId, id);
    if i >= 0 {
      assert Settled(db, db.auths[i]);
      if !db.auths[i].status.Captured? {
        Unsettled(db, i);
      }
      hide Find, HasLocked, CloseReservation, SetStatus, Linked;
    }
  }

  lemma CaptureKeeps(db: Db, id: string, settlementId: string)
    requires Linked(db)
    ensures Linked(Capture(db, id, settlementId).0)
  {
    hide Linked, Capture, SetStatus, CloseReservation, NewSettlement;
    CaptureShape(db, id, settlementId);
    var db' := Capture(db, id, settlementId).0;
    if db' != db {
      SettlementInserted(db, Find(db.auths, AuthId, id), settlementId, db');
    }
  }

  // A statement on a settlement row never touches what identifies it.
  lemma OpKeepsIdentity(s: Settlement, op: SettlementOp)
    ensures var t := ApplyOp(s, op);
            t.id == s.id && t.authId == s.authId && t.merchant == s.merchant && t.amount == s.amount && t.fee == s.fee
  {
    hide Classify, Trim, FirstNonEmpty, Nullable, Coalesce;
  }

  lemma OpKeepsProof(s: Settlement, op: SettlementOp)
    requires Proven(s)
    ensures Proven(ApplyOp(s, op))
  {
    if op.ProviderEvent? {
      var idEnvio, e2e := Trim(op.sentId), Trim(op.sentE2e);
      TrimIsTrimmed(op.sentId);
      TrimIsTrimmed(op.sentE2e);
      TrimIsTrimmed(idEnvio);
      TrimIsTrimmed(e2e);
      assert idEnvio != "" || e2e != "" ==> FirstNonEmpty(e2e, idEnvio) != "";
      hide Trim, FirstNonEmpty, Trimmed, Classify;
    } else {
      hide Trim, FirstNonEmpty, Trimmed, Classify;
    }
  }

  lemma SettleKeeps(db: Db, id: string, op: SettlementOp)
    requires Linked(db)
    ensures Linked(Settle(db, id, op))
  {
    var k := Find(db.settlements, SettlementId, id);
    if k >= 0 {
      var s := db.settlements[k];
      var t := ApplyOp(s, op);
      assert Backed(db.auths, s) && Proven(s);
      OpKeepsIdentity(s, op);
      OpKeepsProof(s, op);
      hide ApplyOp, Proven;
      UniqueUpdate(db.settlements, k, t, SettlementAuth);
      UniqueUpdate(db.settlements, k, t, SettlementId);
      var db' := Settle(db, id, op);
      forall n | 0 <= n < |db.auths|
        ensures Settled(db', db.auths[n])
      {
        assert Settled(db, db.auths[n]);
        FindUpdate(db.settlements, k, t, SettlementAuth, db.auths[n].id);
      }
      hide Find;
    }
  }

  lemma StepKeeps(db: Db, step: Step)
    requires Linked(db)
    ensures Linked(Next(db, step))
  {
    hide Linked, Authorize, Capture, Reverse, ExpireAll, Selectable, Settle;
    match step
    case DoFund(w, n, a, d) => SameTablesKeep(db, Fund(db, w, n, a, d));
    case DoStoreToken(t, h, w, n, e) => SameTablesKeep(db, StoreToken(db, t, h, w, n, e));
    case DoSnapshot(p, a, b, o) => SameTablesKeep(db, StoreSnapshot(db, p, a, b, o));
    case DoAuthorize(in_, at, free) => AuthorizeKeeps(db, in_, at, free);
    case DoCapture(id, sid) => CaptureKeeps(db, id, sid);
    case DoReverse(id) => ReverseKeeps(db, id);
    case DoExpire(batch, limit, now) => ExpireAllKeeps(db, batch);
    case DoSettle(id, op) => SettleKeeps(db, id, op);
  }

  lemma {:induction false} RunKeeps(db: Db, steps: seq<Step>)
    requires Linked(db)
    ensures Linked(Run(db, steps))
    decreases steps
  {
    hide Linked, Next;
    if steps != [] {
      StepKeeps(db, steps[0]);
      RunKeeps(Next(db, steps[0]), steps[1..]);
    }
  }

  // Every reachable database reconciles: none of the five detectors ever reports a row.
  lemma ReconciliationNeverFires(steps: seq<Step>)
    ensures Issues(Run(EMPTY, steps)) == {}
  {
    assert Linked(EMPTY);
    hide Linked, Issues, Run;
    RunKeeps(EMPTY, steps);
    LinkedHasNoIssues(Run(EMPTY, steps));
  }
}
