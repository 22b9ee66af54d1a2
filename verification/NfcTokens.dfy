/** A payment token approves at most one payment between two times it is stored. */
module NfcTokens {
  import opened Common
  import opened Text
  import opened Rows
  import opened NfcLedger

  predicate Used(db: Db, id: string) {
    id in db.tokens && !db.tokens[id].active
  }

  predicate Stores(step: Step, id: string) {
    step.DoStoreToken? && Trim(step.tokenId) == id
  }

  // A new payment is approved only for a live token of the same wallet and network, and uses it up.
  lemma ApprovalUsesToken(db: Db, in_: AuthorizeInput, now: int, free: bool)
    requires var r := Authorize(db, in_, now, free).1; r.Done? && !r.repeated && r.auth.status.Approved?
    ensures in_.tokenId in db.tokens
    ensures var t := db.tokens[in_.tokenId];
            && t.active && now < t.expiresAt && t.hash == in_.tokenHash
            && Lower(t.wallet) == Lower(in_.wallet) && NormalNetwork(t.network) == NormalNetwork(in_.network)
    ensures Used(Authorize(db, in_, now, free).0, in_.tokenId)
  {
    hide Find, Earlier, NormalNetwork, Trim, Lower, SamePayload, LiquidityAvailable, RowAccepted;
  }

  lemma {:induction false} ExpireAllTokens(db: Db, batch: seq<string>)
    ensures ExpireAll(db, batch).Some? ==> ExpireAll(db, batch).value.tokens == db.tokens
    decreases batch
  {
    hide Find, SetStatus, CloseReservation, HasLocked;
    if batch != [] {
      var i := Find(db.auths, AuthId, batch[0]);
      if i >= 0 && HasLocked(db, db.auths[i]) {
        ExpireAllTokens(GiveBack(db, i, Expired, "hold_expired"), batch[1..]);
      }
    }
  }

  lemma UsedStep(db: Db, step: Step, id: string)
    requires Used(db, id) && !Stores(step, id)
    ensures Used(Next(db, step), id)
  {
    hide Find, SetStatus, CloseReservation, CreateSettlement, HasLocked, ExpireAll, Selectable, ApplyOp;
    hide NormalNetwork, FirstNonEmpty, Trim, Lower, Judge, Earlier, SamePayload, RowAccepted, NewRow;
    if step.DoExpire? {
      ExpireAllTokens(db, step.batch);
    }
  }

  lemma {:induction false} UsedForever(db: Db, steps: seq<Step>, id: string)
    requires Used(db, id) && forall i :: 0 <= i < |steps| ==> !Stores(steps[i], id)
    ensures Used(Run(db, steps), id)
    decreases steps
  {
    hide Used, Stores, Next;
    if steps != [] {
      assert !Stores(steps[0], id);
      UsedStep(db, steps[0], id);
      UsedForever(Next(db, steps[0]), steps[1..], id);
    }
  }

  // After an approval, no other request with the same token is approved until the token is stored
  // anew, whatever happens in between.
  lemma SingleUse(db: Db, first: AuthorizeInput, now: int, free: bool, steps: seq<Step>,
                  second: AuthorizeInput, later: int, free': bool)
    requires var r := Authorize(db, first, now, free).1; r.Done? && !r.repeated && r.auth.status.Approved?
    requires second.tokenId == first.tokenId && forall i :: 0 <= i < |steps| ==> !Stores(steps[i], first.tokenId)
    ensures var r := Authorize(Run(Authorize(db, first, now, free).0, steps), second, later, free').1;
            !(r.Done? && !r.repeated && r.auth.status.Approved?)
  {
    ApprovalUsesToken(db, first, now, free);
    hide Authorize, Run, Stores;
    UsedForever(Authorize(db, first, now, free).0, steps, first.tokenId);
    NotApprovedWhenUsed(Run(Authorize(db, first, now, free).0, steps), second, later, free');
  }

  lemma NotApprovedWhenUsed(db: Db, in_: AuthorizeInput, now: int, free: bool)
    requires Used(db, in_.tokenId)
    ensures var r := Authorize(db, in_, now, free).1;
            !(r.Done? && !r.repeated && r.auth.status.Approved?)
  {
    hide Find, Earlier, NormalNetwork, Trim, Lower, SamePayload, LiquidityAvailable, RowAccepted, Admit;
  }
}
