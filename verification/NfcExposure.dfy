/** BRL exposure: what the treasury has promised to merchants, over every run. */
module NfcExposure {
  import opened Common
  import opened Rows
  import opened NfcLedger
  import Reconciliation = NfcReconciliation

  // ---- invariants ----

  // A reservation repeats the amount of its authorisation and is active only while that is approved.
  predicate Owned(auths: seq<Auth>, r: Reservation) {
    var k := Find(auths, AuthId, r.authId);
    k >= 0 && auths[k].amount == r.amount && (r.status.Active? ==> auths[k].status.Approved?)
  }

  // The authorisation, if approved, holds an active reservation.
  predicate Covered(rows: seq<Reservation>, a: Auth) {
    var k := Find(rows, ReservationAuth, a.id);
    a.status.Approved? ==> k >= 0 && rows[k].status.Active?
  }

  // Holds in every run.
  ghost predicate Matched(db: Db) {
    && Reconciliation.Linked(db)
    && Unique(db.reservations, ReservationAuth)
    && forall j :: 0 <= j < |db.reservations| ==> Owned(db.auths, db.reservations[j])
  }

  // Holds in every run that keeps the liquidity policy on.
  ghost predicate AllCovered(db: Db) {
    forall i :: 0 <= i < |db.auths| ==> Covered(db.reservations, db.auths[i])
  }

  // BRL actively reserved for one authorisation.
  function ReservedFor(rows: seq<Reservation>, id: string): int {
    var k := Find(rows, ReservationAuth, id);
    if k >= 0 then ActiveWeight(rows[k]) else 0
  }

  // The most any provider snapshot ever left above its buffer.
  function Ceiling(snapshots: seq<Snapshot>): (c: int)
    ensures c >= 0
    ensures forall s :: s in snapshots && s.provider == "efi" ==> s.available - s.buffer <= c
  {
    if snapshots == [] then 0
    else
      var last := snapshots[|snapshots| - 1];
      var before := Ceiling(snapshots[..|snapshots| - 1]);
      assert snapshots == snapshots[..|snapshots| - 1] + [last];
      if last.provider == "efi" && last.available - last.buffer > before then last.available - last.buffer else before
  }

  // ---- closing a reservation ----

  lemma CloseSum(rows: seq<Reservation>, id: string, status: ReservationStatus)
    requires !status.Active?
    ensures Sum(CloseReservation(rows, id, status), ActiveWeight) == Sum(rows, ActiveWeight) - ReservedFor(rows, id)
  {
    var k := Find(rows, ReservationAuth, id);
    if k >= 0 {
      SumUpdate(rows, k, rows[k].(status := status), ActiveWeight);
    }
    hide Sum, Find;
  }

  lemma AmountPositive(db: Db, id: string)
    requires Matched(db)
    ensures ReservedFor(db.reservations, id) >= 0
  {
    var k := Find(db.reservations, ReservationAuth, id);
    if k >= 0 {
      assert Owned(db.auths, db.reservations[k]);
      hide Find;
    }
  }

  // The transactions that end a hold change one authorisation and close its reservation.
  lemma CloseKeeps(db: Db, i: nat, status: AuthStatus, reason: string, closed: ReservationStatus, db': Db)
    requires Matched(db) && i < |db.auths| && db.auths[i].status.Approved? && !status.Approved? && !closed.Active?
    requires db'.auths == SetStatus(db.auths, i, status, reason)
    requires db'.reservations == CloseReservation(db.reservations, db.auths[i].id, closed)
    requires Reconciliation.Linked(db')
    ensures Matched(db')
  {
    var id := db.auths[i].id;
    var k := Find(db.reservations, ReservationAuth, id);
    UniqueFind(db.auths, AuthId, i);
    if k >= 0 {
      UniqueUpdate(db.reservations, k, db.reservations[k].(status := closed), ReservationAuth);
    }
    forall j | 0 <= j < |db'.reservations|
      ensures Owned(db'.auths, db'.reservations[j])
    {
      assert Owned(db.auths, db.reservations[j]);
      FindUpdate(db.auths, i, db'.auths[i], AuthId, db.reservations[j].authId);
      if db.reservations[j].authId == id {
        UniqueFind(db.reservations, ReservationAuth, j);
      }
    }
    hide Find;
  }

  lemma CloseCovers(db: Db, i: nat, status: AuthStatus, reason: string, closed: ReservationStatus, db': Db)
    requires Matched(db) && AllCovered(db) && i < |db.auths| && !status.Approved?
    requires db'.auths == SetStatus(db.auths, i, status, reason)
    requires db'.reservations == CloseReservation(db.reservations, db.auths[i].id, closed)
    ensures AllCovered(db')
  {
    var id := db.auths[i].id;
    var k := Find(db.reservations, ReservationAuth, id);
    forall n | 0 <= n < |db'.auths|
      ensures Covered(db'.reservations, db'.auths[n])
    {
      assert Covered(db.reservations, db.auths[n]);
      if n != i {
        assert AuthId(db.auths[n]) != AuthId(db.auths[i]);
        if k >= 0 {
          FindUpdate(db.reservations, k, db.reservations[k].(status := closed), ReservationAuth, db.auths[n].id);
        }
      }
    }
    hide Find;
  }

  // ---- capture ----

  // Capturing turns a reservation into a settlement. Exactly: exposure grows by whatever part of
  // the amount was not reserved, which is all of it or nothing.
  lemma CaptureExposure(db: Db, id: string, settlementId: string)
    requires Matched(db)
    ensures var db' := Capture(db, id, settlementId).0;
            var i := Find(db.auths, AuthId, id);
            db' != db ==>
              && i >= 0
              && Exposure(db') == Exposure(db) + db.auths[i].amount - ReservedFor(db.reservations, id)
              && (Exposure(db') == Exposure(db) <==> ReservedFor(db.reservations, id) > 0)
  {
    Reconciliation.CaptureShape(db, id, settlementId);
    var db' := Capture(db, id, settlementId).0;
    var i := Find(db.auths, AuthId, id);
    if db' != db {
      ReservedWholly(db, i);
      hide Capture, Matched, ReservedFor, CloseReservation;
      CloseSum(db.reservations, id, Consumed);
      SumAppend(db.settlements, NewSettlement(settlementId, db.auths[i]), OpenWeight);
      hide Sum, Find;
    }
  }

  lemma ReservedWholly(db: Db, i: nat)
    requires Matched(db) && i < |db.auths|
    ensures db.auths[i].amount > 0
    ensures ReservedFor(db.reservations, db.auths[i].id) in {0, db.auths[i].amount}
    ensures Covered(db.reservations, db.auths[i]) && db.auths[i].status.Approved? ==>
              ReservedFor(db.reservations, db.auths[i].id) == db.auths[i].amount
  {
    var k := Find(db.reservations, ReservationAuth, db.auths[i].id);
    UniqueFind(db.auths, AuthId, i);
    if k >= 0 {
      assert Owned(db.auths, db.reservations[k]);
    }
    hide Find;
  }

  lemma CaptureKeeps(db: Db, id: string, settlementId: string)
    requires Matched(db)
    ensures var db' := Capture(db, id, settlementId).0;
            && Matched(db') && db'.snapshots == db.snapshots
            && (AllCovered(db) ==> AllCovered(db') && Exposure(db') == Exposure(db))
  {
    Reconciliation.CaptureShape(db, id, settlementId);
    Reconciliation.CaptureKeeps(db, id, settlementId);
    CaptureExposure(db, id, settlementId);
    var db' := Capture(db, id, settlementId).0;
    var i := Find(db.auths, AuthId, id);
    if db' != db {
      var reason := db.auths[i].reason;
      CloseKeeps(db, i, Captured, reason, Consumed, db');
      if AllCovered(db) {
        CloseCovers(db, i, Captured, reason, Consumed, db');
        assert Covered(db.reservations, db.auths[i]);
        ReservedWholly(db, i);
      }
    }
    hide Capture, Matched, AllCovered, Exposure, CloseReservation, SetStatus, Find, ReservedFor;
  }

  // ---- giving holds back ----

  lemma GiveBackKeeps(db: Db, i: nat, status: AuthStatus, reason: string)
    requires Matched(db) && i < |db.auths| && db.auths[i].status.Approved? && HasLocked(db, db.auths[i])
    requires !status.Approved? && !status.Captured?
    ensures var db' := GiveBack(db, i, status, reason);
            && Matched(db') && db'.snapshots == db.snapshots
            && (AllCovered(db) ==> AllCovered(db'))
            && Exposure(db') == Exposure(db) - ReservedFor(db.reservations, db.auths[i].id) <= Exposure(db)
  {
    var db' := GiveBack(db, i, status, reason);
    Reconciliation.StatusKeeps(db, i, status, reason, db');
    CloseKeeps(db, i, status, reason, Released, db');
    if AllCovered(db) {
      CloseCovers(db, i, status, reason, Released, db');
    }
    AmountPositive(db, db.auths[i].id);
    hide Matched, ReservedFor, CloseReservation, AllCovered;
    CloseSum(db.reservations, db.auths[i].id, Released);
    hide Sum;
  }

  lemma ReverseKeeps(db: Db, id: string)
    requires Matched(db)
    ensures var db' := Reverse(db, id).0;
            && Matched(db') && db'.snapshots == db.snapshots
            && (AllCovered(db) ==> AllCovered(db')) && Exposure(db') <= Exposure(db)
  {
    hide Matched, AllCovered, Exposure, HasLocked, GiveBack, ReservedFor;
    var i := Find(db.auths, AuthId, id);
    if i >= 0 && HasLocked(db, db.auths[i]) && db.auths[i].status.Approved? {
      GiveBackKeeps(db, i, Reversed, db.auths[i].reason);
    }
  }

  lemma {:induction false} ExpireAllKeeps(db: Db, batch: seq<string>)
    requires Matched(db)
    ensures var r := ExpireAll(db, batch);
            r.Some? ==>
              && Matched(r.value) && r.value.snapshots == db.snapshots
              && (AllCovered(db) ==> AllCovered(r.value)) && Exposure(r.value) <= Exposure(db)
    decreases batch
  {
    hide Matched, AllCovered, Exposure, HasLocked, GiveBack, ReservedFor;
    if batch != [] {
      var i := Find(db.auths, AuthId, batch[0]);
      if i >= 0 && HasLocked(db, db.auths[i]) && db.auths[i].status.Approved? {
        GiveBackKeeps(db, i, Expired, "hold_expired");
        ExpireAllKeeps(GiveBack(db, i, Expired, "hold_expired"), batch[1..]);
      }
    }
  }

  // ---- settlements ----

  lemma OpNeverReopens(s: Settlement, op: SettlementOp)
    requires s.amount > 0
    ensures OpenWeight(ApplyOp(s, op)) <= OpenWeight(s)
  {
    Reconciliation.OpKeepsIdentity(s, op);
    hide Classify, FirstNonEmpty, Nullable, Coalesce;
  }

  lemma SettleKeeps(db: Db, id: string, op: SettlementOp)
    requires Matched(db)
    ensures var db' := Settle(db, id, op);
            && Matched(db') && db'.snapshots == db.snapshots
            && (AllCovered(db) ==> AllCovered(db')) && Exposure(db') <= Exposure(db)
  {
    Reconciliation.SettleKeeps(db, id, op);
    var k := Find(db.settlements, SettlementId, id);
    if k >= 0 {
      var s := db.settlements[k];
      assert Reconciliation.Backed(db.auths, s);
      OpNeverReopens(s, op);
      hide ApplyOp, Find;
      SumUpdate(db.settlements, k, ApplyOp(s, op), OpenWeight);
      hide Sum, OpenWeight;
    }
  }

  // ---- authorisation ----

  // A row under a new id has no reservation yet.
  lemma NotReserved(db: Db, id: string)
    requires Matched(db) && Find(db.auths, AuthId, id) < 0
    ensures Find(db.reservations, ReservationAuth, id) < 0
  {
    forall j | 0 <= j < |db.reservations|
      ensures db.reservations[j].authId != id
    {
      assert Owned(db.auths, db.reservations[j]);
    }
  }

  lemma AppendMatches(db: Db, row: Auth, reserve: bool, db': Db)
    requires Matched(db) && Find(db.auths, AuthId, row.id) < 0
    requires reserve ==> row.status.Approved?
    requires db'.auths == db.auths + [row]
    requires db'.reservations == if reserve then db.reservations + [Reservation(row.id, row.amount, Active)] else db.reservations
    requires Reconciliation.Linked(db')
    ensures Matched(db')
  {
    NotReserved(db, row.id);
    var r := Reservation(row.id, row.amount, Active);
    UniqueAppend(db.reservations, r, ReservationAuth);
    forall j | 0 <= j < |db'.reservations|
      ensures Owned(db'.auths, db'.reservations[j])
    {
      FindAppend(db.auths, row, AuthId, db'.reservations[j].authId);
      if j < |db.reservations| {
        assert Owned(db.auths, db.reservations[j]);
      }
    }
    hide Find;
  }

  lemma AppendCovers(db: Db, row: Auth, reserve: bool, db': Db)
    requires Matched(db) && AllCovered(db) && Find(db.auths, AuthId, row.id) < 0
    requires reserve == row.status.Approved?
    requires db'.auths == db.auths + [row]
    requires db'.reservations == if reserve then db.reservations + [Reservation(row.id, row.amount, Active)] else db.reservations
    ensures AllCovered(db')
  {
    NotReserved(db, row.id);
    forall n | 0 <= n < |db'.auths|
      ensures Covered(db'.reservations, db'.auths[n])
    {
      FindAppend(db.reservations, Reservation(row.id, row.amount, Active), ReservationAuth, db'.auths[n].id);
      if n < |db.auths| {
        assert Covered(db.reservations, db.auths[n]);
      }
    }
    hide Find;
  }

  // The verdict that lets a payment through with the policy on has seen room for its amount.
  lemma JudgedRoom(db: Db, in_: AuthorizeInput, now: int, lockFree: bool)
    requires Judge(db, in_, now, lockFree).status.Approved? && in_.policy
    ensures var newest := Newest(db.snapshots);
            && newest.Some? && Exposure(db) + in_.amount <= newest.value.available - newest.value.buffer
            && now - newest.value.observedAt <= (if in_.maxAge <= 0 then 120 else in_.maxAge)
            && in_.amount > 0 && lockFree
  {
    hide Exposure, UsdtKey, NormalNetwork;
  }

  // What an authorisation with the policy on does to exposure: nothing, unless it approves a new
  // payment; then it adds the amount, and the newest snapshot still covers the total.
  lemma AuthorizeExposure(db: Db, in_: AuthorizeInput, now: int, lockFree: bool)
    requires Matched(db)
    ensures var r := Authorize(db, in_, now, lockFree);
            && Matched(r.0) && r.0.snapshots == db.snapshots
            && (in_.policy && AllCovered(db) ==> AllCovered(r.0))
            && (in_.policy && Exposure(r.0) != Exposure(db) ==>
                  var newest := Newest(db.snapshots);
                  && newest.Some? && Exposure(r.0) == Exposure(db) + in_.amount
                  && Exposure(r.0) <= newest.value.available - newest.value.buffer)
            && (!in_.policy ==> Exposure(r.0) == Exposure(db))
  {
    Reconciliation.AuthorizeShape(db, in_, now, lockFree);
    Reconciliation.AuthorizeKeeps(db, in_, now, lockFree);
    var db' := Authorize(db, in_, now, lockFree).0;
    if db'.auths != db.auths || db'.reservations != db.reservations {
      var v := Judge(db, in_, now, lockFree);
      var row := NewRow(in_, v.status, v.reason);
      var reserve := v.status.Approved? && in_.policy;
      RowFields(in_, v);
      hide Authorize, Judge, NewRow;
      NotReserved(db, row.id);
      AppendMatches(db, row, reserve, db');
      if in_.policy && AllCovered(db) {
        AppendCovers(db, row, reserve, db');
      }
      if reserve {
        JudgedRoom(db, in_, now, lockFree);
        SumAppend(db.reservations, Reservation(row.id, row.amount, Active), ActiveWeight);
      }
      hide Sum, Matched, AllCovered, Find;
    } else {
      hide Authorize, Sum, Find;
    }
  }

  lemma RowFields(in_: AuthorizeInput, v: Verdict)
    ensures var row := NewRow(in_, v.status, v.reason);
            row.id == in_.id && row.amount == in_.amount && row.status == v.status
  {
  }

  // An approval leaves the exposure within the newest snapshot.
  lemma ApprovalWithinSnapshot(db: Db, in_: AuthorizeInput, now: int, lockFree: bool) returns (k: int)
    requires Matched(db) && in_.policy
    requires var r := Authorize(db, in_, now, lockFree).1; r.Done? && !r.repeated && r.auth.status.Approved?
    ensures var db' := Authorize(db, in_, now, lockFree).0;
            && IsNewest(db'.snapshots, k)
            && Exposure(db') <= db'.snapshots[k].available - db'.snapshots[k].buffer
            && now - db'.snapshots[k].observedAt <= (if in_.maxAge <= 0 then 120 else in_.maxAge)
            && in_.amount > 0 && lockFree
  {
    Reconciliation.AuthorizeShape(db, in_, now, lockFree);
    AuthorizeExposure(db, in_, now, lockFree);
    ApprovedWasJudged(db, in_, now, lockFree);
    JudgedRoom(db, in_, now, lockFree);
    k := NewestFound(db.snapshots);
    hide *;
  }

  // With the policy on, a payment that passes the other checks is approved exactly when the lock is
  // free and the newest snapshot is fresh and has room for it.
  lemma LiquidityExactly(db: Db, amount: int, maxAge: int, now: int, lockFree: bool)
    ensures LiquidityAvailable(db, amount, maxAge, now, lockFree) <==>
              && amount > 0 && lockFree
              && exists k :: IsNewest(db.snapshots, k) && RoomIn(db, db.snapshots[k], amount, maxAge, now)
  {
    var k := NewestFound(db.snapshots);
    hide Sum, Newest;
    if LiquidityAvailable(db, amount, maxAge, now, lockFree) {
      assert IsNewest(db.snapshots, k) && RoomIn(db, db.snapshots[k], amount, maxAge, now);
    }
    forall j | IsNewest(db.snapshots, j) && RoomIn(db, db.snapshots[j], amount, maxAge, now)
      ensures Newest(db.snapshots) == Some(db.snapshots[j])
    {
      NewestUnique(db.snapshots, j);
    }
  }

  // The snapshot is at most maxAge seconds old, 120 by default, and leaves amount above its buffer.
  predicate RoomIn(db: Db, s: Snapshot, amount: int, maxAge: int, now: int) {
    && now - s.observedAt <= (if maxAge > 0 then maxAge else 120)
    && Sum(db.reservations, ActiveWeight) + Sum(db.settlements, OpenWeight) + amount + s.buffer <= s.available
  }

  lemma ApprovedWasJudged(db: Db, in_: AuthorizeInput, now: int, lockFree: bool)
    requires var r := Authorize(db, in_, now, lockFree).1; r.Done? && !r.repeated && r.auth.status.Approved?
    ensures Judge(db, in_, now, lockFree).status.Approved? && in_.amount > 0
  {
    hide Judge, Find, Earlier, NormalNetwork, Admit, SamePayload;
  }

  // ---- runs ----

  ghost predicate PolicyOn(step: Step) {
    step.DoAuthorize? ==> step.input.policy
  }

  ghost predicate Inv(db: Db) {
    Matched(db) && AllCovered(db) && Exposure(db) <= Ceiling(db.snapshots)
  }

  lemma CeilingGrows(snapshots: seq<Snapshot>, s: Snapshot)
    ensures Ceiling(snapshots) <= Ceiling(snapshots + [s])
  {
    assert (snapshots + [s])[..|snapshots|] == snapshots;
  }

  lemma SameTablesKeep(db: Db, db': Db)
    requires Inv(db) && db'.auths == db.auths && db'.settlements == db.settlements && db'.reservations == db.reservations
    requires Ceiling(db'.snapshots) >= Ceiling(db.snapshots)
    ensures Inv(db')
  {
    Reconciliation.SameTablesKeep(db, db');
    hide Sum, Find, Owned, Covered, Ceiling, Reconciliation.Linked;
  }

  lemma AuthorizeKeeps(db: Db, in_: AuthorizeInput, now: int, lockFree: bool)
    requires Inv(db) && in_.policy
    ensures Inv(Authorize(db, in_, now, lockFree).0)
  {
    AuthorizeExposure(db, in_, now, lockFree);
    hide Authorize, Exposure, Matched, AllCovered;
    var k := NewestFound(db.snapshots);
    assert Newest(db.snapshots).Some? ==> Newest(db.snapshots).value in db.snapshots;
    hide Ceiling, Newest;
  }

  lemma StepKeeps(db: Db, step: Step)
    requires Inv(db) && PolicyOn(step)
    ensures Inv(Next(db, step))
  {
    hide Authorize, Capture, Reverse, ExpireAll, Selectable, Settle, Matched, AllCovered, Exposure, Ceiling;
    match step
    case DoFund(w, n, a, d) => SameTablesKeep(db, Fund(db, w, n, a, d));
    case DoStoreToken(t, h, w, n, e) => SameTablesKeep(db, StoreToken(db, t, h, w, n, e));
    case DoSnapshot(p, a, b, o) =>
      CeilingGrows(db.snapshots, StoreSnapshot(db, p, a, b, o).snapshots[|db.snapshots|]);
      SameTablesKeep(db, StoreSnapshot(db, p, a, b, o));
    case DoAuthorize(in_, at, free) => AuthorizeKeeps(db, in_, at, free);
    case DoCapture(id, sid) => CaptureKeeps(db, id, sid);
    case DoReverse(id) => ReverseKeeps(db, id);
    case DoExpire(batch, limit, now) => ExpireAllKeeps(db, batch);
    case DoSettle(id, op) => SettleKeeps(db, id, op);
  }

  lemma {:induction false} RunKeeps(db: Db, steps: seq<Step>)
    requires Inv(db) && forall i :: 0 <= i < |steps| ==> PolicyOn(steps[i])
    ensures Inv(Run(db, steps))
    decreases steps
  {
    hide Inv, Next, PolicyOn;
    if steps != [] {
      assert PolicyOn(steps[0]);
      StepKeeps(db, steps[0]);
      RunKeeps(Next(db, steps[0]), steps[1..]);
    }
  }

  lemma EmptyKept()
    ensures Inv(EMPTY)
  {
  }

  // With the policy on for every authorisation, the exposure of any reachable state is within what
  // some snapshot granted, every approved hold is fully reserved, and no further capture, reversal,
  // expiry or settlement step raises it.
  lemma ExposureBounded(steps: seq<Step>, next: Step)
    requires forall i :: 0 <= i < |steps| ==> PolicyOn(steps[i])
    ensures var db := Run(EMPTY, steps);
            && Exposure(db) <= Ceiling(db.snapshots)
            && AllCovered(db)
            && (next.DoCapture? ==> Exposure(Next(db, next)) == Exposure(db))
            && (!next.DoAuthorize? ==> Exposure(Next(db, next)) <= Exposure(db))
  {
    hide Run, Next, Matched, Exposure, Ceiling, AllCovered, PolicyOn;
    EmptyKept();
    RunKeeps(EMPTY, steps);
    QuietStep(Run(EMPTY, steps), next);
  }

  // What the newest snapshot left above its buffer when the run last approved a payment; until then
  // what was granted before.
  function LastGrant(db: Db, granted: int, steps: seq<Step>): int
    decreases steps
  {
    if steps == [] then granted
    else
      var next := Next(db, steps[0]);
      var newest := Newest(db.snapshots);
      var now := if Exposure(next) > Exposure(db) && newest.Some? then newest.value.available - newest.value.buffer else granted;
      LastGrant(next, now, steps[1..])
  }

  lemma {:induction false} GrantKeeps(db: Db, granted: int, steps: seq<Step>)
    requires Inv(db) && Exposure(db) <= granted && forall i :: 0 <= i < |steps| ==> PolicyOn(steps[i])
    ensures Exposure(Run(db, steps)) <= LastGrant(db, granted, steps)
    decreases steps
  {
    hide Next, Exposure, Newest, Matched, AllCovered, Ceiling;
    if steps != [] {
      var next := Next(db, steps[0]);
      assert PolicyOn(steps[0]);
      StepKeeps(db, steps[0]);
      if Exposure(next) > Exposure(db) {
        RaisedWithinNewest(db, steps[0]);
      }
      hide PolicyOn, Inv;
      var newest := Newest(db.snapshots);
      GrantKeeps(next, if Exposure(next) > Exposure(db) && newest.Some? then newest.value.available - newest.value.buffer
                       else granted, steps[1..]);
    }
  }

  // A step that raises the exposure leaves it within the newest snapshot.
  lemma RaisedWithinNewest(db: Db, step: Step)
    requires Inv(db) && PolicyOn(step) && Exposure(Next(db, step)) > Exposure(db)
    ensures var newest := Newest(db.snapshots);
            newest.Some? && Exposure(Next(db, step)) <= newest.value.available - newest.value.buffer
  {
    QuietStep(db, step);
    if step.DoAuthorize? {
      AuthorizeExposure(db, step.input, step.at, step.lockFree);
    }
    hide Exposure, Authorize, Newest, Matched, AllCovered, Ceiling;
  }

  // With the policy on, the exposure of every reachable state is at most what the newest snapshot left
  // above its buffer at the last approval.
  lemma WithinLastGrant(steps: seq<Step>)
    requires forall i :: 0 <= i < |steps| ==> PolicyOn(steps[i])
    ensures Exposure(Run(EMPTY, steps)) <= LastGrant(EMPTY, 0, steps)
  {
    EmptyKept();
    assert Exposure(EMPTY) == 0;
    hide Run, LastGrant, Inv, PolicyOn;
    GrantKeeps(EMPTY, 0, steps);
  }

  lemma QuietStep(db: Db, next: Step)
    requires Matched(db) && AllCovered(db)
    ensures next.DoCapture? ==> Exposure(Next(db, next)) == Exposure(db)
    ensures !next.DoAuthorize? ==> Exposure(Next(db, next)) <= Exposure(db)
  {
    hide Authorize, Capture, Reverse, ExpireAll, Selectable, Settle, Matched, AllCovered, Sum;
    match next
    case DoCapture(id, sid) => CaptureKeeps(db, id, sid);
    case DoReverse(id) => ReverseKeeps(db, id);
    case DoExpire(batch, limit, now) => ExpireAllKeeps(db, batch);
    case DoSettle(id, op) => SettleKeeps(db, id, op);
    case _ =>
  }
}
