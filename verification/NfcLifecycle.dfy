/** The life of a merchant settlement over whole runs: final states stay final, retries are bounded. */
module NfcLifecycle {
  import opened Common
  import opened Text
  import opened Rows
  import opened NfcLedger
  import Reconciliation = NfcReconciliation

  predicate Final(s: SettlementStatus) {
    s.Confirmed? || s.Rejected? || s.ManualReview? || s.Canceled?
  }

  // How many more times the row can be marked retryable.
  function Measure(s: Settlement): nat {
    if Final(s.status) then 0
    else if s.retryCount <= 5 then 6 - s.retryCount
    else 1
  }

  predicate CountSound(s: Settlement) {
    s.retryCount >= 0 && (s.status.Retryable? ==> 1 <= s.retryCount <= 5)
  }

  // The statement matched the row: its WHERE clause held.
  predicate Marks(s: Settlement, op: SettlementOp) {
    op.MarkRetryable? && Answerable(s.status)
  }

  // ---- one statement ----

  // A settlement counts towards the exposure, with its amount, exactly as long as it is not final.
  lemma OpenUnlessFinal(s: Settlement)
    ensures IsOpen(s.status) <==> !Final(s.status)
    ensures OpenWeight(s) == if Final(s.status) then 0 else s.amount
  {
  }

  // What the provider's words mean, in any case and with any blanks around them.
  lemma ProviderWords(status: string)
    ensures var w := Upper(Trim(status));
            && (Classify(status).SaysConfirmed? <==>
                  w == "REALIZADO" || w == "CONCLUIDA" || w == "CONCLUIDO" || w == "CONFIRMED" || w == "CONFIRMADO"
                  || w == "LIQUIDADO" || w == "COMPLETED")
            && (Classify(status).SaysRejected? <==>
                  w == "REJEITADO" || w == "REJECTED" || w == "DEVOLVIDO" || w == "CANCELADO" || w == "CANCELED" || w == "FAILED")
  {
    hide Trim;
  }

  // Which statements move a settlement from where to where, and when it is due again.
  lemma Transitions(s: Settlement, now: int, after: int, word: string, sentId: string, e2eId: string)
    ensures var t := ApplyOp(s, Claim(now));
            t == if s.status in {Pending, Retryable, Submitted, SubmissionUnknown} && s.nextRetryAt <= now
                 then s.(status := Processing) else s
    ensures ApplyOp(s, MarkManualRequired) == if s.status in {Pending, Retryable} then s.(status := ManualRequired) else s
    ensures var t := ApplyOp(s, MarkSubmitted(now, sentId, e2eId));
            if s.status == Processing then
              && t.status == Submitted && t.retryCount == s.retryCount + 1 && t.nextRetryAt == now + 30 && t.txid == s.txid
              && t.idEnvio == (if Trim(sentId) == "" then None else Some(Trim(sentId)))
              && t.e2eId == (if Trim(e2eId) == "" then None else Some(Trim(e2eId)))
            else t == s
    ensures ApplyOp(s, MarkSubmissionUnknown(now)) ==
            if s.status == Processing then s.(status := SubmissionUnknown, retryCount := s.retryCount + 1, nextRetryAt := now + 30)
            else s
    ensures ApplyOp(s, MarkRetryable(now, after)) ==
            if s.status in {Processing, Submitted, SubmissionUnknown, Retryable}
            then s.(status := if s.retryCount < 5 then Retryable else ManualReview, retryCount := s.retryCount + 1,
                    nextRetryAt := now + (if after > 0 then after else 5))
            else s
    ensures ApplyOp(s, MarkManualReview) ==
            if s.status in {Pending, Processing, Submitted, SubmissionUnknown, Retryable, ManualRequired}
            then s.(status := ManualReview) else s
    ensures var t := ApplyOp(s, ProviderEvent(word, sentId, e2eId));
            && t.retryCount == s.retryCount && t.nextRetryAt == s.nextRetryAt
            && t.status == if (Trim(sentId) != "" || Trim(e2eId) != "")
                              && s.status in {Submitted, Processing, SubmissionUnknown, Retryable}
                           then match Classify(word)
                                case SaysConfirmed => Confirmed
                                case SaysRejected => Rejected
                                case SaysSubmitted => s.status
                           else s.status
  {
    hide Classify, FirstNonEmpty, Coalesce, Trim;
  }

  // The reference of a submission is the end-to-end id or else the sending id, as they were given.
  lemma SubmittedReference(s: Settlement, now: int, sentId: string, e2eId: string)
    requires s.status == Processing
    ensures ApplyOp(s, MarkSubmitted(now, sentId, e2eId)).reference ==
            if Trim(e2eId) != "" then Some(e2eId) else if Trim(sentId) != "" then Some(sentId) else None
  {
    BlankIsEmpty();
    hide Trim;
  }

  lemma BlankIsEmpty()
    ensures Trim("") == ""
  {
  }

  // What a provider's event leaves in the columns it writes: the provider's ids as sent, and as
  // reference the end-to-end id or else the sending id.
  lemma EventColumns(s: Settlement, word: string, sentId: string, e2eId: string)
    requires Trim(sentId) != "" || Trim(e2eId) != ""
    ensures var t := ApplyOp(s, ProviderEvent(word, sentId, e2eId));
            var reference := Some(if Trim(e2eId) != "" then Trim(e2eId) else Trim(sentId));
            && (t.status != s.status ==>
                  && t.reference == reference
                  && t.e2eId == (if Trim(e2eId) == "" then None else Some(Trim(e2eId)))
                  && t.idEnvio == (if Trim(sentId) == "" then None else Some(Trim(sentId)))
                  && t.txid == if t.status == Confirmed then reference else s.txid)
            && (Classify(word).SaysSubmitted? ==>
                  && t.reference == reference && t.txid == s.txid
                  && t.e2eId == (if Trim(e2eId) == "" then s.e2eId else Some(Trim(e2eId)))
                  && t.idEnvio == (if Trim(sentId) == "" then s.idEnvio else Some(Trim(sentId))))
  {
    TrimIsTrimmed(sentId);
    TrimIsTrimmed(e2eId);
    TrimIsTrimmed(Trim(sentId));
    TrimIsTrimmed(Trim(e2eId));
    hide Classify, Trim, Trimmed;
  }

  lemma OpKeepsFinal(s: Settlement, op: SettlementOp)
    requires Final(s.status)
    ensures ApplyOp(s, op).status == s.status && ApplyOp(s, op).retryCount == s.retryCount
  {
    hide Classify, FirstNonEmpty, Nullable, Coalesce;
  }

  lemma OpKeepsCount(s: Settlement, op: SettlementOp)
    requires CountSound(s)
    ensures CountSound(ApplyOp(s, op)) && ApplyOp(s, op).retryCount >= s.retryCount
  {
    hide Classify, FirstNonEmpty, Nullable, Coalesce;
  }

  lemma OpMeasure(s: Settlement, op: SettlementOp)
    requires s.retryCount >= 0
    ensures ApplyOp(s, op).retryCount >= 0
    ensures Measure(ApplyOp(s, op)) + (if Marks(s, op) then 1 else 0) <= Measure(s)
  {
    hide Classify, FirstNonEmpty, Nullable, Coalesce;
  }

  // ---- the rows of a run ----

  // What a step does to the settlement in row j.
  function RowAfter(db: Db, step: Step, j: nat): Settlement
    requires j < |db.settlements|
  {
    if step.DoSettle? && Find(db.settlements, SettlementId, step.settleId) == j
    then ApplyOp(db.settlements[j], step.op)
    else db.settlements[j]
  }

  // Only the settlement functions change a settlement; captures append rows.
  lemma StepRow(db: Db, step: Step, j: nat)
    requires j < |db.settlements|
    ensures j < |Next(db, step).settlements| && Next(db, step).settlements[j] == RowAfter(db, step, j)
  {
    match step
    case DoAuthorize(in_, at, free) =>
      hide Authorize;
      Reconciliation.AuthorizeShape(db, in_, at, free);
    case DoCapture(id, sid) =>
      hide Find, SetStatus, CloseReservation, HasLocked;
    case DoReverse(id) =>
      hide Find, SetStatus, CloseReservation, HasLocked;
    case DoExpire(batch, limit, now) =>
      hide ExpireAll, Selectable;
      ExpireAllRows(db, batch);
    case _ =>
      hide ApplyOp, Find;
  }

  lemma {:induction false} ExpireAllRows(db: Db, batch: seq<string>)
    ensures ExpireAll(db, batch).Some? ==> ExpireAll(db, batch).value.settlements == db.settlements
    decreases batch
  {
    hide Find, SetStatus, CloseReservation, HasLocked;
    if batch != [] {
      var i := Find(db.auths, AuthId, batch[0]);
      if i >= 0 && HasLocked(db, db.auths[i]) {
        ExpireAllRows(GiveBack(db, i, Expired, "hold_expired"), batch[1..]);
      }
    }
  }

  // ---- whole runs ----

  // Whatever happens later, a settlement keeps its row and identity, and a final one its status.
  lemma {:induction false} FinalForever(db: Db, steps: seq<Step>, j: nat)
    requires j < |db.settlements|
    ensures j < |Run(db, steps).settlements|
    ensures var s, t := db.settlements[j], Run(db, steps).settlements[j];
            && t.id == s.id && t.authId == s.authId && t.merchant == s.merchant && t.amount == s.amount && t.fee == s.fee
            && (Final(s.status) ==> t.status == s.status && t.retryCount == s.retryCount)
    decreases steps
  {
    hide Next, ApplyOp, Find, Final;
    if steps != [] {
      StepRow(db, steps[0], j);
      FinalForever(Next(db, steps[0]), steps[1..], j);
      var s := db.settlements[j];
      if steps[0].DoSettle? {
        Reconciliation.OpKeepsIdentity(s, steps[0].op);
        if Final(s.status) {
          OpKeepsFinal(s, steps[0].op);
        }
      }
    }
  }

  ghost predicate CountsSound(db: Db) {
    forall j :: 0 <= j < |db.settlements| ==> CountSound(db.settlements[j])
  }

  // A step appends at most one settlement, and a new one is pending with no retries.
  lemma NewRows(db: Db, step: Step)
    ensures forall j :: |db.settlements| <= j < |Next(db, step).settlements| ==> CountSound(Next(db, step).settlements[j])
  {
    match step
    case DoAuthorize(in_, at, free) =>
      hide Authorize;
      Reconciliation.AuthorizeShape(db, in_, at, free);
    case DoCapture(id, sid) =>
      hide Find, SetStatus, CloseReservation, HasLocked;
    case DoReverse(id) =>
      hide Find, SetStatus, CloseReservation, HasLocked;
    case DoExpire(batch, limit, now) =>
      hide ExpireAll, Selectable;
      ExpireAllRows(db, batch);
    case _ =>
      hide ApplyOp, Find;
  }

  lemma StepCounts(db: Db, step: Step)
    requires CountsSound(db)
    ensures CountsSound(Next(db, step))
  {
    hide Next, ApplyOp, CountSound, Find;
    var db' := Next(db, step);
    NewRows(db, step);
    forall j | 0 <= j < |db.settlements|
      ensures j < |db'.settlements| && CountSound(db'.settlements[j])
    {
      StepRow(db, step, j);
      if step.DoSettle? {
        OpKeepsCount(db.settlements[j], step.op);
      }
    }
  }

  lemma {:induction false} RunCounts(db: Db, steps: seq<Step>)
    requires CountsSound(db)
    ensures CountsSound(Run(db, steps))
    decreases steps
  {
    hide Next, CountsSound;
    if steps != [] {
      StepCounts(db, steps[0]);
      RunCounts(Next(db, steps[0]), steps[1..]);
    }
  }

  // In every reachable state a retryable settlement was tried between one and five times.
  lemma RetryableCount(steps: seq<Step>, s: Settlement)
    requires s in Run(EMPTY, steps).settlements
    ensures s.retryCount >= 0
    ensures s.status.Retryable? ==> 1 <= s.retryCount <= 5
  {
    assert CountsSound(EMPTY);
    RunCounts(EMPTY, steps);
    hide Run;
    var j :| 0 <= j < |Run(EMPTY, steps).settlements| && Run(EMPTY, steps).settlements[j] == s;
    assert CountSound(Run(EMPTY, steps).settlements[j]);
  }

  // How often a run marks the settlement in row j retryable.
  function Markings(db: Db, steps: seq<Step>, j: nat): nat
    requires j < |db.settlements|
    decreases steps
  {
    if steps == [] then 0
    else
      StepRow(db, steps[0], j);
      (if steps[0].DoSettle? && Find(db.settlements, SettlementId, steps[0].settleId) == j
          && Marks(db.settlements[j], steps[0].op) then 1 else 0)
      + Markings(Next(db, steps[0]), steps[1..], j)
  }

  // Every marking uses up measure, which no step gives back.
  lemma {:induction false} MarkingsBounded(db: Db, steps: seq<Step>, j: nat)
    requires j < |db.settlements| && db.settlements[j].retryCount >= 0
    ensures j < |Run(db, steps).settlements|
    ensures Markings(db, steps, j) + Measure(Run(db, steps).settlements[j]) <= Measure(db.settlements[j]) <= 6
    decreases steps
  {
    hide Next, ApplyOp, Find, Final, Marks, Measure;
    MeasureSmall(db.settlements[j]);
    if steps != [] {
      StepRow(db, steps[0], j);
      if steps[0].DoSettle? {
        OpMeasure(db.settlements[j], steps[0].op);
      }
      MarkingsBounded(Next(db, steps[0]), steps[1..], j);
    }
  }

  lemma MeasureSmall(s: Settlement)
    requires s.retryCount >= 0
    ensures Measure(s) <= 6
  {
  }

  // The bound is met: a row tried r times can be marked 6 - r times more, and the last marking sends
  // it to manual review.
  lemma {:induction false} MarkingsAttained(s: Settlement, r: nat)
    requires Answerable(s.status) && s.id == "s" && s.retryCount == r <= 5
    ensures var db := EMPTY.(settlements := [s]);
            var steps := Repeat(DoSettle("s", MarkRetryable(0, 0)), 6 - r);
            && |Run(db, steps).settlements| == 1
            && Markings(db, steps, 0) == 6 - r && Run(db, steps).settlements[0].status == ManualReview
    decreases 6 - r
  {
    var step := DoSettle("s", MarkRetryable(0, 0));
    var db := EMPTY.(settlements := [s]);
    var t := ApplyOp(s, step.op);
    var steps := Repeat(step, 6 - r);
    assert steps[1..] == Repeat(step, 5 - r);
    assert Find(db.settlements, SettlementId, "s") == 0;
    assert Next(db, step) == EMPTY.(settlements := [t]);
    if r < 5 {
      MarkingsAttained(t, r + 1);
    }
  }
}
