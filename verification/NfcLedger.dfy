/**
  The NFC ledger of internal/database/nfc.go as a database value and one function per SQL
  transaction. A function that reports an error returns the database it was given: an error return
  without Commit is a rollback. Row constraints are those of migrations 020, 026 and 027.
 */
module NfcLedger {
  import opened Common
  import opened Text
  import opened Rows

  // ---- rows ----

  datatype Key = Key(wallet: string, network: string, asset: string)

  datatype Balance = Balance(available: int, locked: int)

  datatype Token = Token(hash: string, wallet: string, network: string, active: bool, expiresAt: int)

  datatype AuthStatus = Approved | Declined | RequiresFunding | Captured | Reversed | Expired

  datatype Auth = Auth(
    id: string,
    idempotencyKey: string,
    terminal: string,
    merchant: string,
    wallet: string,
    network: string,
    externalRef: string,
    amount: int,
    fee: int,
    total: int,
    feeBps: int,
    required: int,
    status: AuthStatus,
    reason: string,
    holdExpires: Option<int>)

  datatype ReservationStatus = Active | Consumed | Released

  datatype Reservation = Reservation(authId: string, amount: int, status: ReservationStatus)

  datatype SettlementStatus =
    | ManualRequired
    | Pending
    | Processing
    | Submitted
    | SubmissionUnknown
    | Confirmed
    | Rejected
    | Retryable
    | ManualReview
    | Canceled

  datatype Settlement = Settlement(
    id: string,
    authId: string,
    merchant: string,
    amount: int,
    fee: int,
    status: SettlementStatus,
    retryCount: int,
    nextRetryAt: int,
    reference: Option<string>,
    e2eId: Option<string>,
    idEnvio: Option<string>,
    txid: Option<string>)

  datatype Snapshot = Snapshot(provider: string, available: int, buffer: int, observedAt: int)

  // funded is history: everything ever added to a balance.
  datatype Db = Db(
    balances: map<Key, Balance>,
    funded: map<Key, int>,
    tokens: map<string, Token>,
    auths: seq<Auth>,
    reservations: seq<Reservation>,
    settlements: seq<Settlement>,
    snapshots: seq<Snapshot>)

  const EMPTY: Db := Db(map[], map[], map[], [], [], [], [])

  function AuthId(a: Auth): string { a.id }

  function ReservationAuth(r: Reservation): string { r.authId }

  function SettlementId(s: Settlement): string { s.id }

  function SettlementAuth(s: Settlement): string { s.authId }

  // ---- normalisation ----

  function NormalNetwork(network: string): string {
    var n := Upper(Trim(network));
    if n == "" then "BSC" else n
  }

  // The balance row a payment works on.
  function UsdtKey(wallet: string, network: string): Key {
    Key(Lower(wallet), NormalNetwork(network), "USDT")
  }

  function AuthKey(a: Auth): Key {
    UsdtKey(a.wallet, a.network)
  }

  // ---- liquidity ----

  function ActiveWeight(r: Reservation): int {
    if r.status.Active? then r.amount else 0
  }

  predicate IsOpen(s: SettlementStatus) {
    s.Pending? || s.Processing? || s.Submitted? || s.SubmissionUnknown? || s.Retryable? || s.ManualRequired?
  }

  function OpenWeight(s: Settlement): int {
    if IsOpen(s.status) then s.amount else 0
  }

  // BRL promised to merchants: reserved for approved payments or still to be settled.
  function Exposure(db: Db): int {
    Sum(db.reservations, ActiveWeight) + Sum(db.settlements, OpenWeight)
  }

  // Row k is the provider's latest observation; of several at the same time it is the last one stored.
  ghost predicate IsNewest(snapshots: seq<Snapshot>, k: int) {
    && 0 <= k < |snapshots| && snapshots[k].provider == "efi"
    && (forall j :: 0 <= j <= k && snapshots[j].provider == "efi" ==> snapshots[j].observedAt <= snapshots[k].observedAt)
    && forall j :: k < j < |snapshots| && snapshots[j].provider == "efi" ==> snapshots[j].observedAt < snapshots[k].observedAt
  }

  // ORDER BY observed_at DESC, id DESC LIMIT 1 over the provider's snapshots.
  function Newest(snapshots: seq<Snapshot>): Option<Snapshot> {
    if snapshots == [] then None
    else
      var last := snapshots[|snapshots| - 1];
      var before := Newest(snapshots[..|snapshots| - 1]);
      if last.provider == "efi" && (before.None? || last.observedAt >= before.value.observedAt) then Some(last) else before
  }

  // The row found is the newest one, and there is one unless the provider has no snapshot.
  lemma {:induction false} NewestFound(snapshots: seq<Snapshot>) returns (k: int)
    ensures Newest(snapshots).Some? ==> IsNewest(snapshots, k) && snapshots[k] == Newest(snapshots).value
    ensures Newest(snapshots).None? ==> forall j :: 0 <= j < |snapshots| ==> snapshots[j].provider != "efi"
    decreases snapshots
  {
    k := -1;
    if snapshots != [] {
      var n := |snapshots| - 1;
      var before := NewestFound(snapshots[..n]);
      if snapshots[n].provider == "efi" && (Newest(snapshots[..n]).None? || snapshots[n].observedAt >= Newest(snapshots[..n]).value.observedAt) {
        k := n;
      } else {
        k := before;
      }
    }
  }

  lemma NewestUnique(snapshots: seq<Snapshot>, k: int)
    requires IsNewest(snapshots, k)
    ensures Newest(snapshots) == Some(snapshots[k])
  {
    var found := NewestFound(snapshots);
  }

  predicate LiquidityAvailable(db: Db, amount: int, maxAge: int, now: int, lockFree: bool) {
    var age := if maxAge <= 0 then 120 else maxAge;
    var newest := Newest(db.snapshots);
    && amount > 0 && lockFree && newest.Some?
    && now - newest.value.observedAt <= age
    && newest.value.available - Exposure(db) - newest.value.buffer >= amount
  }

  // ---- funding and tokens ----

  function FirstNonEmpty(a: string, b: string): string {
    if Trim(a) != "" then a else if Trim(b) != "" then b else ""
  }

  function Get<K, V>(m: map<K, V>, k: K, default: V): V {
    if k in m then m[k] else default
  }

  // AddNFCBalance; nothing happens when the delta is not positive.
  function Fund(db: Db, wallet: string, network: string, asset: string, delta: int): Db {
    var k := Key(Lower(Trim(wallet)), NormalNetwork(network), Upper(FirstNonEmpty(asset, "USDT")));
    if delta <= 0 then db
    else
      var b := Get(db.balances, k, Balance(0, 0));
      db.(balances := db.balances[k := b.(available := b.available + delta)],
          funded := db.funded[k := Get(db.funded, k, 0) + delta])
  }

  // StoreNFCToken.
  function StoreToken(db: Db, id: string, hash: string, wallet: string, network: string, expiresAt: int): Db {
    db.(tokens := db.tokens[Trim(id) := Token(Trim(hash), Lower(Trim(wallet)), NormalNetwork(network), true, expiresAt)])
  }

  // StoreNFCTreasurySnapshot.
  function StoreSnapshot(db: Db, provider: string, available: int, buffer: int, now: int): Db {
    db.(snapshots := db.snapshots + [Snapshot(Trim(FirstNonEmpty(provider, "efi")), available, buffer, now)])
  }

  // ---- authorisation ----

  datatype AuthorizeInput = AuthorizeInput(
    id: string,
    idempotencyKey: string,
    tokenId: string,
    tokenHash: string,
    wallet: string,
    network: string,
    merchant: string,
    terminal: string,
    externalRef: string,
    amount: int,
    fee: int,
    total: int,
    feeBps: int,
    required: int,
    holdExpires: int,
    policy: bool,
    maxAge: int)

  datatype LedgerError =
    | PayloadMismatch
    | InsertRejected
    | NotFound
    | NotApproved
    | NoLockedBalance
    | SettlementIdTaken

  datatype Outcome = Done(auth: Auth, repeated: bool) | Failed(error: LedgerError)

  function TotalOf(in_: AuthorizeInput): int {
    if in_.total != 0 then in_.total else in_.amount
  }

  function NewRow(in_: AuthorizeInput, status: AuthStatus, reason: string): Auth {
    Auth(in_.id, Trim(in_.idempotencyKey), Trim(in_.terminal), Trim(in_.merchant), Lower(Trim(in_.wallet)),
         NormalNetwork(in_.network), Trim(in_.externalRef), in_.amount, in_.fee, TotalOf(in_), in_.feeBps, in_.required,
         status, reason, if status.Approved? then Some(in_.holdExpires) else None)
  }

  // The table's CHECK constraints and its primary key.
  predicate RowAccepted(db: Db, a: Auth) {
    && a.amount > 0 && a.fee >= 0 && a.total >= 0 && a.feeBps >= 0 && a.required > 0
    && Find(db.auths, AuthId, a.id) < 0
  }

  predicate SamePayload(a: Auth, in_: AuthorizeInput) {
    && Lower(a.wallet) == Lower(in_.wallet)
    && NormalNetwork(a.network) == NormalNetwork(in_.network)
    && Trim(a.merchant) == Trim(in_.merchant)
    && Trim(a.terminal) == Trim(in_.terminal)
    && Trim(a.externalRef) == Trim(in_.externalRef)
    && a.amount == in_.amount && a.fee == in_.fee && a.total == TotalOf(in_) && a.feeBps == in_.feeBps
    && a.required == in_.required
  }

  // The row with the same terminal and idempotency key, or -1.
  function Earlier(auths: seq<Auth>, terminal: string, key: string): (k: int)
    ensures -1 <= k < |auths|
    ensures k >= 0 ==> auths[k].terminal == terminal && auths[k].idempotencyKey == key
    ensures k < 0 ==> forall i :: 0 <= i < |auths| ==> auths[i].terminal != terminal || auths[i].idempotencyKey != key
  {
    if auths == [] then -1
    else
      var n := |auths| - 1;
      if auths[n].terminal == terminal && auths[n].idempotencyKey == key then n else Earlier(auths[..n], terminal, key)
  }

  datatype Verdict = Verdict(status: AuthStatus, reason: string, revoke: bool)

  // What the checks of AuthorizeNFCPayment decide, in their order.
  function Judge(db: Db, in_: AuthorizeInput, now: int, lockFree: bool): Verdict {
    if in_.tokenId !in db.tokens || db.tokens[in_.tokenId].hash != in_.tokenHash then Verdict(Declined, "invalid_token", false)
    else
      var token := db.tokens[in_.tokenId];
      if !token.active || now >= token.expiresAt then Verdict(Declined, "token_expired_or_revoked", false)
      else if Lower(token.wallet) != Lower(in_.wallet) || NormalNetwork(token.network) != NormalNetwork(in_.network) then
        Verdict(Declined, "token_wallet_mismatch", false)
      else
        var k := UsdtKey(in_.wallet, in_.network);
        if k !in db.balances || db.balances[k].available < in_.required then
          Verdict(RequiresFunding, "insufficient_usdt", true)
        else if in_.policy && !LiquidityAvailable(db, in_.amount, in_.maxAge, now, lockFree) then
          Verdict(Declined, "efi_treasury_liquidity_unavailable", true)
        else Verdict(Approved, "approved", true)
  }

  function Revoke(tokens: map<string, Token>, id: string): map<string, Token> {
    if id in tokens then tokens[id := tokens[id].(active := false)] else tokens
  }

  // Insert the row and, when it is approved, lock the balance and reserve the BRL amount.
  function Admit(db: Db, in_: AuthorizeInput, v: Verdict): Db
    requires v.status.Approved? ==> UsdtKey(in_.wallet, in_.network) in db.balances
  {
    var k := UsdtKey(in_.wallet, in_.network);
    var tokens := if v.revoke then Revoke(db.tokens, in_.tokenId) else db.tokens;
    var inserted := db.(tokens := tokens, auths := db.auths + [NewRow(in_, v.status, v.reason)]);
    if !v.status.Approved? then inserted
    else
      var b := db.balances[k];
      var locked := inserted.(balances := db.balances[k := Balance(b.available - in_.required, b.locked + in_.required)]);
      if in_.policy && Find(db.reservations, ReservationAuth, in_.id) < 0
      then locked.(reservations := db.reservations + [Reservation(in_.id, in_.amount, Active)])
      else locked
  }

  function Authorize(db: Db, in_: AuthorizeInput, now: int, lockFree: bool): (r: (Db, Outcome)) {
    var k := Earlier(db.auths, Trim(in_.terminal), Trim(in_.idempotencyKey));
    if k >= 0 then
      (db, if SamePayload(db.auths[k], in_) then Done(db.auths[k], true) else Failed(PayloadMismatch))
    else
      var v := Judge(db, in_, now, lockFree);
      var row := NewRow(in_, v.status, v.reason);
      if !RowAccepted(db, row) then (db, Failed(InsertRejected)) else (Admit(db, in_, v), Done(row, false))
  }

  // ---- capture, reversal, expiry ----

  function SetStatus(auths: seq<Auth>, i: nat, status: AuthStatus, reason: string): seq<Auth>
    requires i < |auths|
  {
    auths[i := auths[i].(status := status, reason := reason)]
  }

  // UPDATE nfc_brl_reservations SET status WHERE authorization_id = id AND status = 'ACTIVE'.
  function CloseReservation(rows: seq<Reservation>, id: string, status: ReservationStatus): seq<Reservation> {
    var k := Find(rows, ReservationAuth, id);
    if k >= 0 && rows[k].status.Active? then rows[k := rows[k].(status := status)] else rows
  }

  predicate HasLocked(db: Db, a: Auth) {
    AuthKey(a) in db.balances && db.balances[AuthKey(a)].locked >= a.required
  }

  function NewSettlement(id: string, a: Auth): Settlement {
    Settlement(id, a.id, a.merchant, a.amount, a.fee, Pending, 0, 0, None, None, None, None)
  }

  // txCreateMerchantSettlementForCapture: the insert does nothing when the authorisation already
  // has a settlement.
  function CreateSettlement(rows: seq<Settlement>, id: string, a: Auth): (r: Result<seq<Settlement>, LedgerError>)
    ensures r.Err? ==> r.error == SettlementIdTaken
  {
    if Find(rows, SettlementAuth, a.id) >= 0 then Ok(rows)
    else if Find(rows, SettlementId, id) >= 0 then Err(SettlementIdTaken)
    else Ok(rows + [NewSettlement(id, a)])
  }

  function Capture(db: Db, id: string, settlementId: string): (Db, Outcome) {
    var i := Find(db.auths, AuthId, id);
    if i < 0 then (db, Failed(NotFound))
    else
      var a := db.auths[i];
      if a.status.Captured? then
        var rows := CreateSettlement(db.settlements, settlementId, a);
        if rows.Err? then (db, Failed(rows.error)) else (db.(settlements := rows.value), Done(a, true))
      else if !a.status.Approved? then (db, Failed(NotApproved))
      else if !HasLocked(db, a) then (db, Failed(NoLockedBalance))
      else
        var rows := CreateSettlement(db.settlements, settlementId, a);
        if rows.Err? then (db, Failed(rows.error))
        else
          var k := AuthKey(a);
          var b := db.balances[k];
          (db.(balances := db.balances[k := b.(locked := b.locked - a.required)],
               auths := SetStatus(db.auths, i, Captured, a.reason),
               reservations := CloseReservation(db.reservations, id, Consumed),
               settlements := rows.value),
           Done(a.(status := Captured), false))
  }

  // Giving a hold back: the wallet gets its money and the reservation is released.
  function GiveBack(db: Db, i: nat, status: AuthStatus, reason: string): Db
    requires i < |db.auths| && HasLocked(db, db.auths[i])
  {
    var a := db.auths[i];
    var k := AuthKey(a);
    var b := db.balances[k];
    db.(balances := db.balances[k := Balance(b.available + a.required, b.locked - a.required)],
        auths := SetStatus(db.auths, i, status, reason),
        reservations := CloseReservation(db.reservations, a.id, Released))
  }

  function Reverse(db: Db, id: string): (Db, Outcome) {
    var i := Find(db.auths, AuthId, id);
    if i < 0 then (db, Failed(NotFound))
    else
      var a := db.auths[i];
      if a.status.Reversed? then (db, Done(a, true))
      else if !a.status.Approved? then (db, Failed(NotApproved))
      else if !HasLocked(db, a) then (db, Failed(NoLockedBalance))
      else (GiveBack(db, i, Reversed, a.reason), Done(a.(status := Reversed), false))
  }

  predicate Due(a: Auth, now: int) {
    a.status.Approved? && a.holdExpires.Some? && a.holdExpires.value <= now
  }

  // The loop of ExpireNFCHolds over the rows its query returned; None when the transaction fails.
  function ExpireAll(db: Db, batch: seq<string>): Option<Db>
    decreases batch
  {
    if batch == [] then Some(db)
    else
      var i := Find(db.auths, AuthId, batch[0]);
      if i < 0 || !HasLocked(db, db.auths[i]) then None
      else if !db.auths[i].status.Approved? then None
      else ExpireAll(GiveBack(db, i, Expired, "hold_expired"), batch[1..])
  }

  // Any rows the query may return: due, distinct, at most limit of them.
  predicate Selectable(db: Db, batch: seq<string>, limit: int, now: int) {
    && |batch| <= (if limit <= 0 || limit > 500 then 100 else limit)
    && (forall i, j :: 0 <= i < j < |batch| ==> batch[i] != batch[j])
    && (forall i :: 0 <= i < |batch| ==>
          var k := Find(db.auths, AuthId, batch[i]); k >= 0 && Due(db.auths[k], now))
  }

  function Expire(db: Db, batch: seq<string>, limit: int, now: int): Db {
    if !Selectable(db, batch, limit, now) then db
    else
      var r := ExpireAll(db, batch);
      if r.None? then db else r.value
  }

  // ---- settlements ----

  datatype SettlementOp =
    | Claim(now: int)
    | MarkManualRequired
    | MarkSubmitted(now: int, sentId: string, sentE2e: string)
    | MarkSubmissionUnknown(now: int)
    | MarkRetryable(now: int, after: int)
    | MarkManualReview
    | ProviderEvent(status: string, sentId: string, sentE2e: string)

  datatype ProviderVerdict = SaysConfirmed | SaysRejected | SaysSubmitted

  function Classify(status: string): ProviderVerdict {
    var s := Upper(Trim(status));
    if s in {"REALIZADO", "CONCLUIDA", "CONCLUIDO", "CONFIRMED", "CONFIRMADO", "LIQUIDADO", "COMPLETED"} then SaysConfirmed
    else if s in {"REJEITADO", "REJECTED", "DEVOLVIDO", "CANCELADO", "CANCELED", "FAILED"} then SaysRejected
    else SaysSubmitted
  }

  function Nullable(s: string): Option<string> {
    if s == "" then None else Some(s)
  }

  function Coalesce(s: string, old_: Option<string>): Option<string> {
    if s == "" then old_ else Some(s)
  }

  predicate Answerable(s: SettlementStatus) {
    s.Submitted? || s.Processing? || s.SubmissionUnknown? || s.Retryable?
  }

  function ApplyEvent(s: Settlement, verdict: ProviderVerdict, idEnvio: string, e2eId: string): Settlement {
    var reference := FirstNonEmpty(e2eId, idEnvio);
    match verdict
    case SaysConfirmed =>
      if Answerable(s.status) then s.(status := Confirmed, reference := Some(reference), e2eId := Nullable(e2eId),
                                      idEnvio := Nullable(idEnvio), txid := Some(reference))
      else s
    case SaysRejected =>
      if Answerable(s.status) then s.(status := Rejected, reference := Some(reference), e2eId := Nullable(e2eId),
                                      idEnvio := Nullable(idEnvio))
      else s
    case SaysSubmitted =>
      s.(reference := Some(reference), e2eId := Coalesce(e2eId, s.e2eId), idEnvio := Coalesce(idEnvio, s.idEnvio))
  }

  // One statement on one settlement row; its WHERE clause decides whether it applies.
  function ApplyOp(s: Settlement, op: SettlementOp): Settlement {
    match op
    case Claim(now) =>
      if (s.status.Pending? || s.status.Retryable? || s.status.Submitted? || s.status.SubmissionUnknown?)
         && s.nextRetryAt <= now
      then s.(status := Processing) else s
    case MarkManualRequired =>
      if s.status.Pending? || s.status.Retryable? then s.(status := ManualRequired) else s
    case MarkSubmitted(now, idEnvio, e2eId) =>
      if s.status.Processing? then
        s.(status := Submitted, retryCount := s.retryCount + 1, nextRetryAt := now + 30,
           reference := Nullable(FirstNonEmpty(e2eId, idEnvio)), idEnvio := Nullable(Trim(idEnvio)),
           e2eId := Nullable(Trim(e2eId)))
      else s
    case MarkSubmissionUnknown(now) =>
      if s.status.Processing? then s.(status := SubmissionUnknown, retryCount := s.retryCount + 1, nextRetryAt := now + 30)
      else s
    case MarkRetryable(now, after) =>
      if Answerable(s.status) then
        s.(status := if s.retryCount >= 5 then ManualReview else Retryable, retryCount := s.retryCount + 1,
           nextRetryAt := now + if after <= 0 then 5 else after)
      else s
    case MarkManualReview => if IsOpen(s.status) then s.(status := ManualReview) else s
    case ProviderEvent(status, idEnvio, e2eId) =>
      if Trim(idEnvio) == "" && Trim(e2eId) == "" then s
      else ApplyEvent(s, Classify(status), Trim(idEnvio), Trim(e2eId))
  }

  function Settle(db: Db, id: string, op: SettlementOp): Db {
    var k := Find(db.settlements, SettlementId, id);
    if k < 0 then db else db.(settlements := db.settlements[k := ApplyOp(db.settlements[k], op)])
  }

  // ---- runs ----

  datatype Step =
    | DoFund(wallet: string, network: string, asset: string, delta: int)
    | DoStoreToken(tokenId: string, hash: string, tokenWallet: string, tokenNetwork: string, expiresAt: int)
    | DoSnapshot(provider: string, available: int, buffer: int, observed: int)
    | DoAuthorize(input: AuthorizeInput, at: int, lockFree: bool)
    | DoCapture(captureId: string, settlementId: string)
    | DoReverse(reverseId: string)
    | DoExpire(batch: seq<string>, limit: int, clock: int)
    | DoSettle(settleId: string, op: SettlementOp)

  function Next(db: Db, step: Step): Db {
    match step
    case DoFund(w, n, a, d) => Fund(db, w, n, a, d)
    case DoStoreToken(t, h, w, n, e) => StoreToken(db, t, h, w, n, e)
    case DoSnapshot(p, a, b, o) => StoreSnapshot(db, p, a, b, o)
    case DoAuthorize(in_, at, free) => Authorize(db, in_, at, free).0
    case DoCapture(id, sid) => Capture(db, id, sid).0
    case DoReverse(id) => Reverse(db, id).0
    case DoExpire(batch, limit, now) => Expire(db, batch, limit, now)
    case DoSettle(id, op) => Settle(db, id, op)
  }

  function Run(db: Db, steps: seq<Step>): Db
    decreases steps
  {
    if steps == [] then db else Run(Next(db, steps[0]), steps[1..])
  }
}
