/**
  What single NFC requests do, told from their inputs: names are normalised, verdicts follow from the
  token, the balance and the treasury, and each transaction writes exactly the rows it should.
 */
module NfcRequests {
  import opened Common
  import opened Text
  import opened Rows
  import opened NfcLedger
  import Conservation = NfcConservation

  // ---- names ----

  // Networks are compared without regard to case and surrounding blanks, and a blank one is BSC.
  lemma NetworkNames(network: string)
    ensures var n := NormalNetwork(network);
            && n != "" && Trimmed(n) && (forall i :: 0 <= i < |n| ==> !('a' <= n[i] <= 'z'))
            && (Trim(network) == "" ==> n == "BSC")
            && (Trim(network) != "" ==> Lower(n) == Lower(Trim(network)))
  {
    TrimIsTrimmed(network);
    CaseKeepsTrimmed(Trim(network));
    UpperIsUpper(Trim(network));
    LowerOfUpper(Trim(network));
    hide Trim, Trimmed;
    BscName();
  }

  lemma BscName()
    ensures Trimmed("BSC") && forall i :: 0 <= i < 3 ==> !('a' <= "BSC"[i] <= 'z')
  {
  }

  lemma UpperIsUpper(s: string)
    ensures forall i :: 0 <= i < |s| ==> !('a' <= Upper(s)[i] <= 'z')
  {
    forall i | 0 <= i < |s|
      ensures !('a' <= UpperChar(s[i]) <= 'z')
    {
      CaseLetters(s[i]);
    }
  }

  lemma LowerOfUpper(s: string)
    ensures Lower(Upper(s)) == Lower(s)
  {
    forall i | 0 <= i < |s|
      ensures LowerChar(UpperChar(s[i])) == LowerChar(s[i])
    {
      CaseLetters(s[i]);
    }
  }

  // Storing a token makes it usable under its trimmed id and leaves the other tokens alone.
  lemma TokenStored(db: Db, id: string, hash: string, wallet: string, network: string, expiresAt: int, other: string)
    ensures var r := StoreToken(db, id, hash, wallet, network, expiresAt);
            && Trim(id) in r.tokens
            && (var t := r.tokens[Trim(id)];
                && t.active && t.hash == Trim(hash) && t.expiresAt == expiresAt && Trimmed(t.wallet)
                && t.wallet == Lower(t.wallet) && Lower(t.wallet) == Lower(Trim(wallet)) && t.network == NormalNetwork(network))
            && (other != Trim(id) ==>
                  (other in r.tokens <==> other in db.tokens) && (other in db.tokens ==> r.tokens[other] == db.tokens[other]))
            && r == db.(tokens := r.tokens)
  {
    TrimIsTrimmed(wallet);
    CaseKeepsTrimmed(Trim(wallet));
    LowerIdempotent(Trim(wallet));
    hide Trim, Trimmed, NormalNetwork, Lower;
  }

  // ---- authorisation ----

  // The row an authorisation writes, column by column.
  lemma RowWritten(db: Db, in_: AuthorizeInput, now: int, free: bool)
    requires var r := Authorize(db, in_, now, free).1; r.Done? && !r.repeated
    ensures var r := Authorize(db, in_, now, free);
            var a := r.1.auth;
            && r.0.auths == db.auths + [a]
            && a.id == in_.id && a.idempotencyKey == Trim(in_.idempotencyKey) && a.terminal == Trim(in_.terminal)
            && a.merchant == Trim(in_.merchant) && a.wallet == Lower(Trim(in_.wallet)) && a.externalRef == Trim(in_.externalRef)
            && a.network == NormalNetwork(in_.network) && a.amount == in_.amount && a.fee == in_.fee
            && a.total == (if in_.total == 0 then in_.amount else in_.total) && a.feeBps == in_.feeBps
            && a.required == in_.required
            && a.holdExpires == (if a.status == Approved then Some(in_.holdExpires) else None)
  {
    hide Judge, Trim, NormalNetwork, SamePayload, RowAccepted, Earlier;
  }

  // Under a new key, the insert is rejected exactly by the table's constraints.
  lemma RejectedExactly(db: Db, in_: AuthorizeInput, now: int, free: bool)
    requires Earlier(db.auths, Trim(in_.terminal), Trim(in_.idempotencyKey)) < 0
    ensures Authorize(db, in_, now, free).1 == Failed(InsertRejected) <==>
              in_.amount <= 0 || in_.fee < 0 || in_.total < 0 || in_.feeBps < 0 || in_.required <= 0
              || exists i :: 0 <= i < |db.auths| && db.auths[i].id == in_.id
    ensures Authorize(db, in_, now, free).1 == Failed(InsertRejected) ==> Authorize(db, in_, now, free).0 == db
  {
    hide Judge, Trim, NormalNetwork, SamePayload, Earlier;
    var k := Find(db.auths, AuthId, in_.id);
    hide Find;
    assert k >= 0 ==> db.auths[k].id == in_.id;
    assert (exists i :: 0 <= i < |db.auths| && db.auths[i].id == in_.id) ==> k >= 0;
  }

  // The token presented is known, unused, unexpired and of the same wallet and network.
  ghost predicate TokenGood(db: Db, in_: AuthorizeInput, now: int) {
    && in_.tokenId in db.tokens
    && (var t := db.tokens[in_.tokenId];
        && t.hash == in_.tokenHash && t.active && now < t.expiresAt
        && Lower(t.wallet) == Lower(in_.wallet) && NormalNetwork(t.network) == NormalNetwork(in_.network))
  }

  ghost predicate Funded(db: Db, in_: AuthorizeInput) {
    var k := Key(Lower(in_.wallet), NormalNetwork(in_.network), "USDT");
    k in db.balances && db.balances[k].available >= in_.required
  }

  // A new request is approved exactly if its token is good, its wallet is funded and, with the policy
  // on, the treasury has room; it asks for funding exactly if only the wallet is short; and a token
  // that was good is used up whatever the answer.
  lemma VerdictExactly(db: Db, in_: AuthorizeInput, now: int, free: bool)
    requires var r := Authorize(db, in_, now, free).1; r.Done? && !r.repeated
    ensures var r := Authorize(db, in_, now, free);
            var s := r.1.auth.status;
            && (s == Approved <==> TokenGood(db, in_, now) && Funded(db, in_)
                                   && (in_.policy ==> LiquidityAvailable(db, in_.amount, in_.maxAge, now, free)))
            && (s == RequiresFunding <==> TokenGood(db, in_, now) && !Funded(db, in_))
            && (s == Approved || s == RequiresFunding || s == Declined)
            && (TokenGood(db, in_, now) ==> in_.tokenId in r.0.tokens && !r.0.tokens[in_.tokenId].active)
            && (!TokenGood(db, in_, now) ==> r.0.tokens == db.tokens)
  {
    hide Trim, Lower, NormalNetwork, SamePayload, RowAccepted, Earlier, LiquidityAvailable, Find;
  }

  // Money moves only on approval: the required amount from available to locked, in the row of the
  // lower-case wallet, the normal network and USDT.
  lemma LockedExactly(db: Db, in_: AuthorizeInput, now: int, free: bool, k: Key)
    requires var r := Authorize(db, in_, now, free).1; r.Done? && !r.repeated
    ensures var r := Authorize(db, in_, now, free);
            var mine := Key(Lower(in_.wallet), NormalNetwork(in_.network), "USDT");
            if r.1.auth.status == Approved && k == mine then
              && k in db.balances && k in r.0.balances
              && r.0.balances[k].available == db.balances[k].available - in_.required
              && r.0.balances[k].locked == db.balances[k].locked + in_.required
            else
              (k in r.0.balances <==> k in db.balances) && (k in db.balances ==> r.0.balances[k] == db.balances[k])
  {
    hide Trim, Lower, NormalNetwork, SamePayload, RowAccepted, Earlier, LiquidityAvailable, Find;
  }

  // A wallet that was funded and given a token can pay once with it: the whole way from funding to
  // approval, in whatever case and with whatever blanks wallet and network were written.
  lemma FundedWalletPays(db: Db, wallet: string, network: string, delta: int, tokenId: string, hash: string,
                         expiresAt: int, in_: AuthorizeInput, now: int, free: bool)
    requires var key := Key(Lower(Trim(wallet)), NormalNetwork(network), "USDT");
             key in db.balances ==> db.balances[key].available >= 0
    requires delta >= in_.required > 0 && in_.amount > 0 && in_.fee >= 0 && in_.total >= 0 && in_.feeBps >= 0 && !in_.policy
    requires in_.tokenId == Trim(tokenId) && in_.tokenHash == Trim(hash) && now < expiresAt
    requires Lower(in_.wallet) == Lower(Trim(wallet)) && NormalNetwork(in_.network) == NormalNetwork(network)
    requires Earlier(db.auths, Trim(in_.terminal), Trim(in_.idempotencyKey)) < 0 && Find(db.auths, AuthId, in_.id) < 0
    ensures var ready := StoreToken(Fund(db, wallet, network, "usdt", delta), tokenId, hash, wallet, network, expiresAt);
            var r := Authorize(ready, in_, now, free).1;
            r.Done? && !r.repeated && r.auth.status == Approved && r.auth.required == in_.required
  {
    AssetName();
    LowerIdempotent(Trim(wallet));
    Conservation.NetworkStable(network);
    hide Trim, Lower, NormalNetwork, SamePayload, Earlier, LiquidityAvailable, Find, FirstNonEmpty, Upper;
  }

  lemma AssetName()
    ensures Upper(FirstNonEmpty("usdt", "USDT")) == "USDT" && Upper(FirstNonEmpty("", "USDT")) == "USDT"
  {
    TrimIsTrimmed("usdt");
    TrimIsTrimmed("USDT");
    TrimIsTrimmed("");
    hide Trim;
    assert Upper("usdt") == "USDT" && Upper("USDT") == "USDT";
  }

  // The first text that is not blank, as it was written.
  lemma FirstText(a: string, b: string)
    ensures FirstNonEmpty(a, b) == if Trim(a) != "" then a else if Trim(b) != "" then b else ""
  {
  }

  // ---- capture and expiry ----

  // A first capture writes a pending settlement, due at once and never tried, and uses the reservation.
  lemma CaptureWrites(db: Db, id: string, settlementId: string)
    requires var r := Capture(db, id, settlementId).1; r.Done? && !r.repeated
    requires Find(db.settlements, SettlementAuth, id) < 0
    ensures var r := Capture(db, id, settlementId);
            && r.1.auth.id == id && r.1.auth.status == Captured
            && |r.0.settlements| == |db.settlements| + 1
            && var s := r.0.settlements[|db.settlements|];
               && s.id == settlementId && s.authId == id && s.merchant == r.1.auth.merchant
               && s.amount == r.1.auth.amount && s.fee == r.1.auth.fee
               && s.status == Pending && s.retryCount == 0
               && s.reference.None? && s.e2eId.None? && s.idEnvio.None? && s.txid.None?
               && ApplyOp(s, Claim(0)).status == Processing
  {
    hide HasLocked, CloseReservation, UsdtKey;
  }

  // Which batches an expiry may take: distinct approved authorisations whose hold is over, at most the
  // limit, and at most 100 if the limit is not between 1 and 500.
  lemma SelectableExactly(db: Db, batch: seq<string>, limit: int, now: int)
    ensures Selectable(db, batch, limit, now) <==>
              && (1 <= limit <= 500 ==> |batch| <= limit) && (!(1 <= limit <= 500) ==> |batch| <= 100)
              && (forall i, j :: 0 <= i < j < |batch| ==> batch[i] != batch[j])
              && forall i :: 0 <= i < |batch| ==> HoldOver(db, batch[i], now)
  {
    hide Find;
  }

  // The hold of an approved authorisation ends at its expiry time, that moment included.
  predicate HoldOver(db: Db, id: string, now: int) {
    var k := Find(db.auths, AuthId, id);
    k >= 0 && db.auths[k].status == Approved && db.auths[k].holdExpires.Some? && db.auths[k].holdExpires.value <= now
  }

  // Expiry changes the status of exactly the batch.
  lemma {:induction false} ExpireAllExactly(db: Db, batch: seq<string>, i: nat)
    requires ExpireAll(db, batch).Some? && Unique(db.auths, AuthId) && i < |db.auths|
    ensures |ExpireAll(db, batch).value.auths| == |db.auths|
    ensures ExpireAll(db, batch).value.auths[i] ==
            if db.auths[i].id in batch then db.auths[i].(status := Expired, reason := "hold_expired") else db.auths[i]
    decreases batch
  {
    hide HasLocked, CloseReservation, UsdtKey;
    if batch != [] {
      var k := Find(db.auths, AuthId, batch[0]);
      var next := GiveBack(db, k, Expired, "hold_expired");
      UniqueUpdate(db.auths, k, next.auths[k], AuthId);
      ExpireAllExactly(next, batch[1..], i);
      assert batch == [batch[0]] + batch[1..];
      if db.auths[i].id == batch[0] {
        UniqueFind(db.auths, AuthId, i);
      }
      hide Find, Unique;
    }
  }
}
