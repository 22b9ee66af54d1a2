/** One payment per terminal and idempotency key: retries find the first answer, however late. */
module NfcIdempotency {
  import opened Common
  import opened Text
  import opened Rows
  import opened NfcLedger
  import Conservation = NfcConservation
  import Reconciliation = NfcReconciliation

  // What never changes about an authorisation.
  function Identity(a: Auth): Auth {
    a.(status := Approved, reason := "")
  }

  ghost predicate SameKey(a: Auth, b: Auth) {
    a.terminal == b.terminal && a.idempotencyKey == b.idempotencyKey
  }

  ghost predicate OneRowPerKey(db: Db) {
    forall i, j :: 0 <= i < j < |db.auths| ==> !SameKey(db.auths[i], db.auths[j])
  }

  // The rows of db are still there, possibly with another status, and more may follow.
  ghost predicate Extends(db: Db, db': Db) {
    |db.auths| <= |db'.auths| && forall i :: 0 <= i < |db.auths| ==> Identity(db'.auths[i]) == Identity(db.auths[i])
  }

  // ---- steps ----

  lemma ExtendsKeeps(db: Db, db': Db)
    requires OneRowPerKey(db) && Extends(db, db') && |db'.auths| == |db.auths|
    ensures OneRowPerKey(db')
  {
    forall i, j | 0 <= i < j < |db'.auths|
      ensures !SameKey(db'.auths[i], db'.auths[j])
    {
      assert !SameKey(db.auths[i], db.auths[j]);
      assert Identity(db'.auths[i]) == Identity(db.auths[i]) && Identity(db'.auths[j]) == Identity(db.auths[j]);
    }
  }

  lemma {:induction false} ExpireAllExtends(db: Db, batch: seq<string>)
    ensures ExpireAll(db, batch).Some? ==>
              Extends(db, ExpireAll(db, batch).value) && |ExpireAll(db, batch).value.auths| == |db.auths|
    decreases batch
  {
    hide Find, CloseReservation, HasLocked;
    if batch != [] {
      var i := Find(db.auths, AuthId, batch[0]);
      if i >= 0 && HasLocked(db, db.auths[i]) {
        ExpireAllExtends(GiveBack(db, i, Expired, "hold_expired"), batch[1..]);
      }
    }
  }

  // Only an authorisation adds a row, and only under a key that has none.
  lemma AuthorizeExtends(db: Db, in_: AuthorizeInput, now: int, lockFree: bool)
    requires OneRowPerKey(db)
    ensures var db' := Authorize(db, in_, now, lockFree).0; Extends(db, db') && OneRowPerKey(db')
  {
    Reconciliation.AuthorizeShape(db, in_, now, lockFree);
    var db' := Authorize(db, in_, now, lockFree).0;
    if db'.auths != db.auths {
      KeyWasFree(db, in_, now, lockFree);
      hide Authorize, Judge, NewRow;
      forall i, j | 0 <= i < j < |db'.auths|
        ensures !SameKey(db'.auths[i], db'.auths[j])
      {
        if j < |db.auths| {
          assert !SameKey(db.auths[i], db.auths[j]);
        }
      }
    }
  }

  lemma KeyWasFree(db: Db, in_: AuthorizeInput, now: int, lockFree: bool)
    requires Authorize(db, in_, now, lockFree).0.auths != db.auths
    ensures var v := Judge(db, in_, now, lockFree);
            forall i :: 0 <= i < |db.auths| ==> !SameKey(db.auths[i], NewRow(in_, v.status, v.reason))
  {
    hide Judge, Admit, Trim, NormalNetwork, SamePayload, RowAccepted;
  }

  lemma StepExtends(db: Db, step: Step)
    requires OneRowPerKey(db)
    ensures Extends(db, Next(db, step)) && OneRowPerKey(Next(db, step))
  {
    var db' := Next(db, step);
    if step.DoAuthorize? {
      hide Authorize;
      AuthorizeExtends(db, step.input, step.at, step.lockFree);
    } else {
      OtherStepExtends(db, step);
      ExtendsKeeps(db, db');
    }
  }

  lemma OtherStepExtends(db: Db, step: Step)
    requires !step.DoAuthorize?
    ensures Extends(db, Next(db, step)) && |Next(db, step).auths| == |db.auths|
  {
    hide Find, CloseReservation, HasLocked, ExpireAll, Selectable, CreateSettlement, ApplyOp, NormalNetwork, FirstNonEmpty;
    if step.DoExpire? {
      ExpireAllExtends(db, step.batch);
    }
  }

  lemma {:induction false} RunExtends(db: Db, steps: seq<Step>)
    requires OneRowPerKey(db)
    ensures Extends(db, Run(db, steps)) && OneRowPerKey(Run(db, steps))
    decreases steps
  {
    hide Next, OneRowPerKey;
    if steps != [] {
      StepExtends(db, steps[0]);
      RunExtends(Next(db, steps[0]), steps[1..]);
    }
  }

  // No reachable state holds two authorisations for one terminal and key.
  lemma OnePaymentPerKey(steps: seq<Step>)
    ensures OneRowPerKey(Run(EMPTY, steps))
  {
    assert OneRowPerKey(EMPTY);
    RunExtends(EMPTY, steps);
  }

  // ---- retries ----

  lemma {:induction false} TrimLeftLength(s: string)
    ensures |TrimLeft(s)| <= |s| && (|TrimLeft(s)| == |s| ==> TrimLeft(s) == s)
    decreases s
  {
    if s != "" {
      TrimLeftLength(s[1..]);
    }
  }

  lemma {:induction false} TrimRightLength(s: string)
    ensures |TrimRight(s)| <= |s| && (|TrimRight(s)| == |s| ==> TrimRight(s) == s)
    decreases s
  {
    if s != "" {
      TrimRightLength(s[..|s| - 1]);
    }
  }

  // A stored wallet compares equal to the one presented exactly if that had no blanks around it.
  lemma WalletCompares(wallet: string)
    ensures Lower(Lower(Trim(wallet))) == Lower(wallet) <==> Trim(wallet) == wallet
  {
    TrimLeftLength(wallet);
    TrimRightLength(TrimLeft(wallet));
    LowerIdempotent(Trim(wallet));
    assert |Lower(Trim(wallet))| == |Trim(wallet)| && |Lower(wallet)| == |wallet|;
  }

  lemma TrimTwice(s: string)
    ensures Trim(Trim(s)) == Trim(s)
  {
    TrimIsTrimmed(s);
    TrimIsTrimmed(Trim(s));
  }

  // The payload comparison against the row an input produced, whatever its status became.
  lemma OwnPayload(in_: AuthorizeInput, status: AuthStatus, reason: string, a: Auth)
    requires Identity(a) == Identity(NewRow(in_, status, reason))
    ensures SamePayload(a, in_) <==> Trim(in_.wallet) == in_.wallet
  {
    WalletCompares(in_.wallet);
    Conservation.NetworkStable(in_.network);
    TrimTwice(in_.merchant);
    TrimTwice(in_.terminal);
    TrimTwice(in_.externalRef);
    hide Trim, Lower, NormalNetwork;
  }

  lemma EarlierFinds(db: Db, i: nat)
    requires OneRowPerKey(db) && i < |db.auths|
    ensures Earlier(db.auths, db.auths[i].terminal, db.auths[i].idempotencyKey) == i
  {
    var k := Earlier(db.auths, db.auths[i].terminal, db.auths[i].idempotencyKey);
    assert 0 <= k && SameKey(db.auths[k], db.auths[i]);
  }

  // The same request again, after anything else has happened: nothing changes, and the answer is the
  // first authorisation in its present state, unless the wallet was written with surrounding blanks,
  // in which case the retry is refused as a different payload.
  lemma RetryRecognised(db: Db, in_: AuthorizeInput, now: int, free: bool, steps: seq<Step>, later: int, free': bool)
    requires OneRowPerKey(db)
    requires var r := Authorize(db, in_, now, free).1; r.Done? && !r.repeated
    ensures var first := Authorize(db, in_, now, free);
            var end := Run(first.0, steps);
            var i := |db.auths|;
            && i < |end.auths| && Identity(end.auths[i]) == Identity(first.1.auth)
            && Authorize(end, in_, later, free') ==
               (end, if Trim(in_.wallet) == in_.wallet then Done(end.auths[i], true) else Failed(PayloadMismatch))
  {
    var v := Judge(db, in_, now, free);
    var first := Authorize(db, in_, now, free).0;
    var end := Run(first, steps);
    var row := NewRow(in_, v.status, v.reason);
    FirstAnswer(db, in_, now, free);
    AuthorizeExtends(db, in_, now, free);
    hide Judge;
    RunExtends(first, steps);
    var i := |db.auths|;
    assert Identity(first.auths[i]) == Identity(end.auths[i]);
    EarlierFinds(end, i);
    OwnPayload(in_, v.status, v.reason, end.auths[i]);
    RetryAnswer(end, in_, later, free', i);
    hide Authorize, Run, NewRow, SamePayload, Trim;
  }

  lemma FirstAnswer(db: Db, in_: AuthorizeInput, now: int, free: bool)
    requires var r := Authorize(db, in_, now, free).1; r.Done? && !r.repeated
    ensures var r := Authorize(db, in_, now, free);
            var v := Judge(db, in_, now, free);
            r.0.auths == db.auths + [r.1.auth] && r.1.auth == NewRow(in_, v.status, v.reason)
  {
    hide Judge, Trim, NormalNetwork, SamePayload, RowAccepted, Earlier, NewRow;
  }

  lemma RetryAnswer(db: Db, in_: AuthorizeInput, now: int, free: bool, i: nat)
    requires i < |db.auths| && Earlier(db.auths, Trim(in_.terminal), Trim(in_.idempotencyKey)) == i
    ensures Authorize(db, in_, now, free) ==
            (db, if SamePayload(db.auths[i], in_) then Done(db.auths[i], true) else Failed(PayloadMismatch))
  {
    hide Judge, Trim, NormalNetwork, SamePayload, RowAccepted, Earlier, NewRow;
  }
}
