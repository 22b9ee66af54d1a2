/**
  Concurrent sends and deposit scans over btc_utxos and btc_transactions: Service.Send,
  SyncAddressUTXOsWithEvents and the confirmation tracker of internal/bitcoin. No transaction spans
  two statements, so every statement is one step and steps of different calls interleave freely. A
  statement whose error the source ignores may or may not have taken effect.
 */
module SendProtocol {
  import opened Common
  import opened UtxoStore

  // Where a call to Send stands after selecting its coins.
  datatype Phase =
    | Selected
    | Holding
    | Signed
    | Saved
    | Accepted
    | Unknown
    | Recorded
    | Finished
    | Failing(broadcast: bool)
    | Released(broadcast: bool)
    | Aborted

  datatype Send = Send(ids: seq<string>, phase: Phase, delivered: bool)

  datatype TxStatus = TxSigned | TxBroadcast | TxPending | TxConfirmed | TxFailed

  // What the provider answers to a broadcast. Send compares the error with == against
  // ErrBroadcastUnknown, so only the bare sentinel takes that branch.
  datatype Reply = Taken | NetworkError | HttpError | BareUnknown

  // rows holds the btc_transactions row of each send that has one; seen is what the confirmation
  // tracker has read and not yet written back.
  datatype State = State(coins: Table, sends: map<string, Send>, rows: map<string, TxStatus>, seen: set<string>)

  datatype SaveOutcome = Inserted | Skipped | SaveFailed(applied: bool)

  datatype Step =
    | Scan(id: string, coin: Coin)
    | Vanish(id: string)
    | Start(send: string, ids: seq<string>)
    | Reserve(send: string, sqlError: bool, applied: bool)
    | FailBuild(send: string)
    | Sign(send: string)
    | Save(send: string, outcome: SaveOutcome)
    | Broadcast(send: string, delivered: bool, reply: Reply)
    | Release(send: string, applied: bool)
    | MarkFailed(send: string, applied: bool)
    | Record(send: string, applied: bool)
    | MarkSpent(send: string, applied: bool)
    | TrackRead(send: string)
    | TrackWrite(send: string, confirmed: bool)

  predicate IsRecorded(t: TxStatus) {
    t.TxBroadcast? || t.TxPending? || t.TxConfirmed?
  }

  // From a successful reservation until a release.
  predicate Holds(p: Phase) {
    p.Holding? || p.Signed? || p.Saved? || p.Accepted? || p.Unknown? || p.Recorded? || p.Finished? || p.Failing?
  }

  function InPhase(s: State, x: string, p: Phase): bool {
    x in s.sends && s.sends[x].phase == p
  }

  function Goto(s: State, x: string, p: Phase): State
    requires x in s.sends
  {
    s.(sends := s.sends[x := s.sends[x].(phase := p)])
  }

  function Ids(s: State, x: string): set<string>
    requires x in s.sends
  {
    Elements(s.sends[x].ids)
  }

  predicate AllReserved(t: Table, ids: seq<string>) {
    |Affected(t, ids, Confirmed)| == |ids|
  }

  function DoReserve(s: State, x: string, sqlError: bool, applied: bool): State
    requires x in s.sends
  {
    var moved := s.(coins := Move(s.coins, Ids(s, x), Confirmed, Reserved));
    if sqlError then Goto(if applied then moved else s, x, Aborted)
    else if AllReserved(s.coins, s.sends[x].ids) then Goto(moved, x, Holding)
    else Goto(moved, x, Aborted)
  }

  function DoSave(s: State, x: string, outcome: SaveOutcome): State
    requires x in s.sends && x !in s.rows
  {
    var inserted := s.(rows := s.rows[x := TxSigned]);
    match outcome
    case Inserted => Goto(inserted, x, Saved)
    case Skipped => Goto(s, x, Saved)
    case SaveFailed(applied) => Goto(if applied then inserted else s, x, Failing(false))
  }

  function DoBroadcast(s: State, x: string, delivered: bool, reply: Reply): State
    requires x in s.sends
  {
    var next := if reply.Taken? then Accepted else if reply.BareUnknown? then Unknown else Failing(true);
    s.(sends := s.sends[x := s.sends[x].(phase := next, delivered := delivered)])
  }

  function SetRow(s: State, x: string, applied: bool, t: TxStatus): State {
    if applied && x in s.rows then s.(rows := s.rows[x := t]) else s
  }

  // One step; a step that is not enabled changes nothing.
  ghost function Apply(s: State, step: Step): State {
    match step
    case Scan(id, coin) => s.(coins := Upsert(s.coins, id, coin))
    case Vanish(id) => s.(coins := Orphan(s.coins, id))
    case Start(x, ids) => if x in s.sends then s else s.(sends := s.sends[x := Send(ids, Selected, false)])
    case Reserve(x, sqlError, applied) => if InPhase(s, x, Selected) then DoReserve(s, x, sqlError, applied) else s
    case FailBuild(x) => if InPhase(s, x, Holding) then Goto(s, x, Failing(false)) else s
    case Sign(x) => if InPhase(s, x, Holding) then Goto(s, x, Signed) else s
    case Save(x, outcome) => if InPhase(s, x, Signed) && x !in s.rows then DoSave(s, x, outcome) else s
    case Broadcast(x, delivered, reply) => if InPhase(s, x, Saved) then DoBroadcast(s, x, delivered, reply) else s
    case Release(x, applied) =>
      if x in s.sends && s.sends[x].phase.Failing? then
        var coins := if applied then Move(s.coins, Ids(s, x), Reserved, Confirmed) else s.coins;
        Goto(s.(coins := coins), x, Released(s.sends[x].phase.broadcast))
      else s
    case MarkFailed(x, applied) => if InPhase(s, x, Released(true)) then SetRow(s, x, applied, TxFailed) else s
    case Record(x, applied) =>
      if InPhase(s, x, Accepted) then Goto(SetRow(s, x, applied, TxBroadcast), x, Recorded)
      else if InPhase(s, x, Unknown) then Goto(SetRow(s, x, applied, TxBroadcast), x, Finished)
      else s
    case MarkSpent(x, applied) =>
      if InPhase(s, x, Recorded) then
        Goto(s.(coins := if applied then Spend(s.coins, Ids(s, x), x) else s.coins), x, Finished)
      else s
    case TrackRead(x) =>
      if x in s.rows && (s.rows[x].TxBroadcast? || s.rows[x].TxPending?) then s.(seen := s.seen + {x}) else s
    case TrackWrite(x, confirmed) =>
      if x in s.seen && x in s.rows then s.(rows := s.rows[x := if confirmed then TxConfirmed else TxPending]) else s
  }

  ghost function Run(s: State, steps: seq<Step>): State
    decreases steps
  {
    if steps == [] then s else Run(Apply(s, steps[0]), steps[1..])
  }

  const EMPTY: State := State(map[], map[], map[], {})

  // ---- the invariant ----

  // A holder's coins are reserved for it, or spent by it once it has finished.
  ghost predicate Owned(s: State, x: string)
    requires x in s.sends
  {
    forall id :: id in s.sends[x].ids ==>
      id in s.coins && (s.coins[id].status == Reserved ||
                        (s.coins[id].status == Spent && s.sends[x].phase.Finished? && s.coins[id].spentBy == x))
  }

  ghost predicate HoldersOwn(s: State) {
    forall x :: x in s.sends && Holds(s.sends[x].phase) ==> Owned(s, x)
  }

  ghost predicate HoldersDisjoint(s: State) {
    forall x, y :: x in s.sends && y in s.sends && x != y && Holds(s.sends[x].phase) && Holds(s.sends[y].phase)
      ==> Elements(s.sends[x].ids) !! Elements(s.sends[y].ids)
  }

  ghost predicate RowsFollow(s: State) {
    && (forall x :: x in s.rows ==> x in s.sends && (IsRecorded(s.rows[x]) ==>
          s.sends[x].phase.Recorded? || s.sends[x].phase.Finished?))
    && (forall x :: x in s.seen ==> x in s.rows && IsRecorded(s.rows[x]))
  }

  ghost predicate DeliveredLate(s: State) {
    forall x :: x in s.sends && s.sends[x].delivered ==>
      var p := s.sends[x].phase;
      p.Accepted? || p.Unknown? || p.Recorded? || p.Finished? || p == Failing(true) || p == Released(true)
  }

  ghost predicate Inv(s: State) {
    UniqueOutPoints(s.coins) && HoldersOwn(s) && HoldersDisjoint(s) && RowsFollow(s) && DeliveredLate(s)
  }

  lemma SameOwners(s: State, s': State)
    requires HoldersOwn(s) && s'.coins == s.coins && s'.sends == s.sends
    ensures HoldersOwn(s')
  {
    forall x | x in s.sends && Holds(s.sends[x].phase)
      ensures Owned(s', x)
    {
      assert Owned(s, x);
    }
  }

  lemma ScanKeeps(s: State, id: string, coin: Coin)
    requires Inv(s)
    ensures Inv(s.(coins := Upsert(s.coins, id, coin)))
  {
    UpsertUnique(s.coins, id, coin);
    forall x, c | x in s.sends && Holds(s.sends[x].phase) && c in s.sends[x].ids
      ensures c in Upsert(s.coins, id, coin)
      ensures Upsert(s.coins, id, coin)[c].status == s.coins[c].status
      ensures Upsert(s.coins, id, coin)[c].spentBy == s.coins[c].spentBy
    {
      assert Owned(s, x);
      UpsertKeeps(s.coins, id, coin, c);
    }
    hide Upsert;
    forall x | x in s.sends && Holds(s.sends[x].phase)
      ensures Owned(s.(coins := Upsert(s.coins, id, coin)), x)
    {
      assert Owned(s, x);
    }
  }

  lemma VanishKeeps(s: State, id: string)
    requires Inv(s)
    ensures Inv(s.(coins := Orphan(s.coins, id)))
  {
    var s' := s.(coins := Orphan(s.coins, id));
    forall x | x in s.sends && Holds(s.sends[x].phase)
      ensures Owned(s', x)
    {
      assert Owned(s, x);
    }
  }

  // Changing the phase of one holder, or of a send that stops holding.
  lemma GotoKeeps(s: State, x: string, p: Phase)
    requires Inv(s) && x in s.sends && (Holds(p) ==> Holds(s.sends[x].phase))
    requires s.sends[x].phase.Finished? ==> p.Finished?
    requires x in s.rows && IsRecorded(s.rows[x]) ==> p.Recorded? || p.Finished?
    requires s.sends[x].delivered ==>
               p.Accepted? || p.Unknown? || p.Recorded? || p.Finished? || p == Failing(true) || p == Released(true)
    ensures Inv(Goto(s, x, p))
  {
    var s' := Goto(s, x, p);
    forall y | y in s'.sends && Holds(s'.sends[y].phase)
      ensures Owned(s', y)
    {
      assert Owned(s, y);
    }
  }

  lemma ReserveKeeps(s: State, x: string, sqlError: bool, applied: bool)
    requires Inv(s) && InPhase(s, x, Selected)
    ensures Inv(DoReserve(s, x, sqlError, applied))
  {
    hide Inv, Move;
    var moved := s.(coins := Move(s.coins, Ids(s, x), Confirmed, Reserved));
    MovedKeeps(s, x);
    AbortKeeps(moved, x);
    AbortKeeps(s, x);
    if AllReserved(s.coins, s.sends[x].ids) {
      TakesOver(s, x, moved);
    }
  }

  lemma MovedKeeps(s: State, x: string)
    requires Inv(s) && x in s.sends
    ensures Inv(s.(coins := Move(s.coins, Ids(s, x), Confirmed, Reserved)))
  {
    var moved := s.(coins := Move(s.coins, Ids(s, x), Confirmed, Reserved));
    forall y | y in s.sends && Holds(s.sends[y].phase)
      ensures Owned(moved, y)
    {
      assert Owned(s, y);
    }
  }

  lemma AbortKeeps(s: State, x: string)
    requires Inv(s) && InPhase(s, x, Selected)
    ensures Inv(Goto(s, x, Aborted))
  {
    hide UniqueOutPoints, HoldersOwn, HoldersDisjoint;
    GotoKeeps(s, x, Aborted);
  }

  // After a full reservation the coins belong to x and to nobody else.
  lemma TakesOver(s: State, x: string, moved: State)
    requires Inv(s) && Inv(moved) && InPhase(s, x, Selected) && AllReserved(s.coins, s.sends[x].ids)
    requires moved == s.(coins := Move(s.coins, Ids(s, x), Confirmed, Reserved))
    ensures Inv(Goto(moved, x, Holding))
  {
    hide Affected, UniqueOutPoints;
    AffectedAll(s.coins, s.sends[x].ids, Confirmed);
    assert UniqueOutPoints(moved.coins);
    var s' := Goto(moved, x, Holding);
    NobodyHolds(s, x);
    assert Owned(s', x);
    forall y | y in s'.sends && Holds(s'.sends[y].phase)
      ensures Owned(s', y)
    {
      if y != x {
        assert Owned(moved, y);
      }
    }
  }

  lemma NobodyHolds(s: State, x: string)
    requires HoldersOwn(s) && x in s.sends
    requires forall id :: id in s.sends[x].ids ==> id in s.coins && s.coins[id].status == Confirmed
    ensures forall y :: y in s.sends && Holds(s.sends[y].phase) ==> Elements(s.sends[x].ids) !! Elements(s.sends[y].ids)
  {
    forall y | y in s.sends && Holds(s.sends[y].phase)
      ensures Elements(s.sends[x].ids) !! Elements(s.sends[y].ids)
    {
      assert Owned(s, y);
    }
  }

  lemma ReleaseKeeps(s: State, x: string, coins: Table)
    requires Inv(s) && x in s.sends && s.sends[x].phase.Failing?
    requires coins == s.coins || coins == Move(s.coins, Ids(s, x), Reserved, Confirmed)
    ensures Inv(Goto(s.(coins := coins), x, Released(s.sends[x].phase.broadcast)))
  {
    var s' := Goto(s.(coins := coins), x, Released(s.sends[x].phase.broadcast));
    forall y | y in s'.sends && Holds(s'.sends[y].phase)
      ensures Owned(s', y)
    {
      assert y != x && Owned(s, y);
      assert Elements(s.sends[x].ids) !! Elements(s.sends[y].ids);
    }
  }

  lemma SpendKeeps(s: State, x: string, coins: Table)
    requires Inv(s) && InPhase(s, x, Recorded)
    requires coins == s.coins || coins == Spend(s.coins, Ids(s, x), x)
    ensures Inv(Goto(s.(coins := coins), x, Finished))
  {
    var s' := Goto(s.(coins := coins), x, Finished);
    forall y | y in s'.sends && Holds(s'.sends[y].phase)
      ensures Owned(s', y)
    {
      assert Owned(s, y);
      assert y != x ==> Elements(s.sends[x].ids) !! Elements(s.sends[y].ids);
    }
  }

  lemma RowKeeps(s: State, x: string, t: TxStatus)
    requires Inv(s) && x in s.sends && x !in s.seen
    requires IsRecorded(t) ==> s.sends[x].phase.Recorded? || s.sends[x].phase.Finished?
    ensures Inv(s.(rows := s.rows[x := t]))
  {
    SameOwners(s, s.(rows := s.rows[x := t]));
    hide HoldersOwn, Owned;
  }

  // Recording moves to a recorded phase and sets the row in either order.
  lemma RecordKeeps(s: State, x: string, applied: bool, p: Phase)
    requires Inv(s) && x in s.sends && (s.sends[x].phase.Accepted? || s.sends[x].phase.Unknown?)
    requires p.Recorded? || p.Finished?
    ensures Inv(Goto(SetRow(s, x, applied, TxBroadcast), x, p))
  {
    GotoKeeps(s, x, p);
    var moved := Goto(s, x, p);
    if applied && x in s.rows {
      RowKeeps(moved, x, TxBroadcast);
      assert Goto(SetRow(s, x, applied, TxBroadcast), x, p) == moved.(rows := moved.rows[x := TxBroadcast]);
    }
    hide Inv;
  }

  lemma BroadcastKeeps(s: State, x: string, delivered: bool, reply: Reply)
    requires Inv(s) && InPhase(s, x, Saved)
    ensures Inv(DoBroadcast(s, x, delivered, reply))
  {
    var s' := DoBroadcast(s, x, delivered, reply);
    forall y | y in s'.sends && Holds(s'.sends[y].phase)
      ensures Owned(s', y)
    {
      assert Owned(s, y);
    }
  }

  lemma SaveKeeps(s: State, x: string, outcome: SaveOutcome)
    requires Inv(s) && InPhase(s, x, Signed) && x !in s.rows
    ensures Inv(DoSave(s, x, outcome))
  {
    var inserted := s.(rows := s.rows[x := TxSigned]);
    RowKeeps(s, x, TxSigned);
    GotoKeeps(s, x, Saved);
    GotoKeeps(s, x, Failing(false));
    GotoKeeps(inserted, x, Saved);
    GotoKeeps(inserted, x, Failing(false));
    hide Inv;
  }

  lemma StartKeeps(s: State, x: string, ids: seq<string>)
    requires Inv(s) && x !in s.sends
    ensures Inv(s.(sends := s.sends[x := Send(ids, Selected, false)]))
  {
    var s' := s.(sends := s.sends[x := Send(ids, Selected, false)]);
    forall y | y in s'.sends && Holds(s'.sends[y].phase)
      ensures Owned(s', y)
    {
      assert Owned(s, y);
    }
  }

  lemma TrackReadKeeps(s: State, x: string)
    requires Inv(s) && x in s.rows && IsRecorded(s.rows[x])
    ensures Inv(s.(seen := s.seen + {x}))
  {
    SameOwners(s, s.(seen := s.seen + {x}));
    hide HoldersOwn, Owned;
  }

  lemma TrackWriteKeeps(s: State, x: string, t: TxStatus)
    requires Inv(s) && x in s.seen && IsRecorded(t)
    ensures Inv(s.(rows := s.rows[x := t]))
  {
    SameOwners(s, s.(rows := s.rows[x := t]));
    hide HoldersOwn, Owned;
  }

  lemma MarkFailedKeeps(s: State, x: string, applied: bool)
    requires Inv(s) && InPhase(s, x, Released(true))
    ensures Inv(SetRow(s, x, applied, TxFailed))
  {
    if applied && x in s.rows {
      RowKeeps(s, x, TxFailed);
    }
  }

  lemma StepKeeps(s: State, step: Step)
    requires Inv(s)
    ensures Inv(Apply(s, step))
  {
    hide UniqueOutPoints, HoldersOwn, HoldersDisjoint, Upsert, Move, Orphan, UtxoStore.Spend, Elements, DoReserve;
    match step
    case Scan(id, coin) => ScanKeeps(s, id, coin);
    case Vanish(id) => VanishKeeps(s, id);
    case Start(x, ids) => if x !in s.sends { StartKeeps(s, x, ids); }
    case Reserve(x, e, a) => if InPhase(s, x, Selected) { ReserveKeeps(s, x, e, a); }
    case FailBuild(x) => if InPhase(s, x, Holding) { GotoKeeps(s, x, Failing(false)); }
    case Sign(x) => if InPhase(s, x, Holding) { GotoKeeps(s, x, Signed); }
    case Save(x, o) => if InPhase(s, x, Signed) && x !in s.rows { SaveKeeps(s, x, o); }
    case Broadcast(x, d, r) => if InPhase(s, x, Saved) { BroadcastKeeps(s, x, d, r); }
    case Release(x, a) =>
      if x in s.sends && s.sends[x].phase.Failing? {
        ReleaseKeeps(s, x, if a then Move(s.coins, Ids(s, x), Reserved, Confirmed) else s.coins);
      }
    case MarkFailed(x, a) => if InPhase(s, x, Released(true)) { MarkFailedKeeps(s, x, a); }
    case Record(x, a) =>
      if InPhase(s, x, Accepted) {
        RecordKeeps(s, x, a, Recorded);
      } else if InPhase(s, x, Unknown) {
        RecordKeeps(s, x, a, Finished);
      }
    case MarkSpent(x, a) =>
      if InPhase(s, x, Recorded) {
        SpendKeeps(s, x, if a then Spend(s.coins, Ids(s, x), x) else s.coins);
      }
    case TrackRead(x) =>
      if x in s.rows && (s.rows[x].TxBroadcast? || s.rows[x].TxPending?) {
        TrackReadKeeps(s, x);
      }
    case TrackWrite(x, c) => if x in s.seen { TrackWriteKeeps(s, x, if c then TxConfirmed else TxPending); }
  }

  lemma {:induction false} RunKeeps(s: State, steps: seq<Step>)
    requires Inv(s)
    ensures Inv(Run(s, steps))
    decreases steps
  {
    hide Inv, Apply;
    if steps != [] {
      StepKeeps(s, steps[0]);
      RunKeeps(Apply(s, steps[0]), steps[1..]);
    }
  }

  lemma EmptyInv()
    ensures Inv(EMPTY)
  {
  }

  // ---- safety over whole runs ----

  ghost predicate SharesCoin(s: State, x: string, y: string) {
    x in s.sends && y in s.sends &&
    exists a, b :: a in s.sends[x].ids && b in s.sends[y].ids && a in s.coins && b in s.coins && s.coins[a].at == s.coins[b].at
  }

  lemma HoldersShareNothing(s: State, x: string, y: string)
    requires Inv(s) && x != y && x in s.sends && y in s.sends && Holds(s.sends[x].phase) && Holds(s.sends[y].phase)
    ensures !SharesCoin(s, x, y)
  {
    forall a, b | a in s.sends[x].ids && b in s.sends[y].ids && a in s.coins && b in s.coins
      ensures s.coins[a].at != s.coins[b].at
    {
      assert a in Elements(s.sends[x].ids) && b in Elements(s.sends[y].ids);
      assert a != b;
    }
  }

  // No two sends recorded as broadcast spend the same outpoint, under any interleaving.
  lemma NoDoubleSpend(steps: seq<Step>, x: string, y: string)
    ensures var s := Run(EMPTY, steps);
            x != y && x in s.rows && y in s.rows && IsRecorded(s.rows[x]) && IsRecorded(s.rows[y])
            ==> !SharesCoin(s, x, y)
  {
    hide Run, SharesCoin;
    EmptyInv();
    RunKeeps(EMPTY, steps);
    var s := Run(EMPTY, steps);
    if x != y && x in s.rows && y in s.rows && IsRecorded(s.rows[x]) && IsRecorded(s.rows[y]) {
      HoldersShareNothing(s, x, y);
    }
  }

  lemma SpentStep(s: State, step: Step, id: string)
    requires id in s.coins && s.coins[id].status == Spent
    ensures id in Apply(s, step).coins && Apply(s, step).coins[id].status == Spent
  {
    if step.Scan? {
      UpsertKeeps(s.coins, step.id, step.coin, id);
    }
    hide Upsert;
  }

  // A spent coin stays spent.
  lemma {:induction false} SpentForever(s: State, steps: seq<Step>, id: string)
    requires id in s.coins && s.coins[id].status == Spent
    ensures id in Run(s, steps).coins && Run(s, steps).coins[id].status == Spent
    decreases steps
  {
    hide Apply;
    if steps != [] {
      SpentStep(s, steps[0], id);
      SpentForever(Apply(s, steps[0]), steps[1..], id);
    }
  }

  // Two transactions that reached the network share an input only if one of them was answered with
  // an error and had its coins released.
  lemma DeliveredDisjoint(steps: seq<Step>, x: string, y: string)
    ensures var s := Run(EMPTY, steps);
            x != y && x in s.sends && y in s.sends && s.sends[x].delivered && s.sends[y].delivered && SharesCoin(s, x, y)
            ==> s.sends[x].phase == Released(true) || s.sends[y].phase == Released(true)
  {
    hide Run, SharesCoin;
    EmptyInv();
    RunKeeps(EMPTY, steps);
    var s := Run(EMPTY, steps);
    if x != y && x in s.sends && y in s.sends && s.sends[x].delivered && s.sends[y].delivered
       && s.sends[x].phase != Released(true) && s.sends[y].phase != Released(true) {
      HoldersShareNothing(s, x, y);
    }
  }

  // MempoolProvider.BroadcastTransaction wraps the sentinel, so it never answers with the bare one.
  function MempoolReply(connected: bool, accepted: bool): Reply {
    if !connected then NetworkError else if accepted then Taken else HttpError
  }

  const COIN: Coin := Coin(OutPoint("mainnet", "t", 0), 1000, 6, Confirmed, "")

  function Attempt(x: string, reply: Reply): seq<Step> {
    [Start(x, ["coin"]), Reserve(x, false, true)] + [Sign(x), Save(x, Inserted)] + [Broadcast(x, true, reply)]
  }

  function Outcome(reply: Reply): Phase {
    if reply.Taken? then Accepted else if reply.BareUnknown? then Unknown else Failing(true)
  }

  function With(s: State, x: string, p: Phase, delivered: bool): State {
    s.(sends := s.sends[x := Send(["coin"], p, delivered)])
  }

  function Coins(status: Status): Table {
    map["coin" := COIN.(status := status)]
  }

  lemma ReserveCoin(s: State, x: string)
    requires s.coins == Coins(Confirmed) && x !in s.sends
    ensures Run(s, [Start(x, ["coin"]), Reserve(x, false, true)]) == With(s.(coins := Coins(Reserved)), x, Holding, false)
  {
    var s1 := With(s, x, Selected, false);
    assert Apply(s, Start(x, ["coin"])) == s1;
    assert Affected(s.coins, ["coin"], Confirmed) == {"coin"};
    assert Move(s.coins, Elements(["coin"]), Confirmed, Reserved) == Coins(Reserved);
    assert Apply(s1, Reserve(x, false, true)) == With(s.(coins := Coins(Reserved)), x, Holding, false);
    RunTwo(s, Start(x, ["coin"]), Reserve(x, false, true));
  }

  lemma SignAndSave(s: State, x: string)
    requires x in s.sends && s.sends[x] == Send(["coin"], Holding, false) && x !in s.rows
    ensures Run(s, [Sign(x), Save(x, Inserted)]) == With(s.(rows := s.rows[x := TxSigned]), x, Saved, false)
  {
    var s1 := With(s, x, Signed, false);
    assert Apply(s, Sign(x)) == s1;
    assert Apply(s1, Save(x, Inserted)) == With(s.(rows := s.rows[x := TxSigned]), x, Saved, false);
    RunTwo(s, Sign(x), Save(x, Inserted));
  }

  lemma AttemptRuns(s: State, x: string, reply: Reply)
    requires s.coins == Coins(Confirmed) && x !in s.sends && x !in s.rows
    ensures Run(s, Attempt(x, reply)) ==
            With(s.(coins := Coins(Reserved), rows := s.rows[x := TxSigned]), x, Outcome(reply), true)
  {
    hide Run;
    var s2 := With(s.(coins := Coins(Reserved)), x, Holding, false);
    ReserveCoin(s, x);
    SignAndSave(s2, x);
    var s4 := With(s2.(rows := s2.rows[x := TxSigned]), x, Saved, false);
    RunOne(s4, Broadcast(x, true, reply));
    var first, second := [Start(x, ["coin"]), Reserve(x, false, true)], [Sign(x), Save(x, Inserted)];
    RunConcat(s, first, second);
    RunConcat(s, first + second, [Broadcast(x, true, reply)]);
    assert Apply(s4, Broadcast(x, true, reply)) == With(s4, x, Outcome(reply), true);
  }

  lemma ReleaseCoin(s: State, x: string)
    requires s.coins == Coins(Reserved) && x in s.sends && s.sends[x] == Send(["coin"], Failing(true), true)
    ensures Apply(s, Release(x, true)) == With(s.(coins := Coins(Confirmed)), x, Released(true), true)
  {
    assert Move(s.coins, Elements(["coin"]), Reserved, Confirmed) == Coins(Confirmed);
  }

  // And that does happen: a connection lost after delivery releases the coin, and a later send
  // delivers a second transaction with the same input.
  lemma LostReplyDoubleSpends() returns (steps: seq<Step>)
    ensures var s := Run(EMPTY, steps);
            && "a" in s.sends && "b" in s.sends && s.sends["a"].delivered && s.sends["b"].delivered
            && SharesCoin(s, "a", "b")
    ensures forall i :: 0 <= i < |steps| && steps[i].Broadcast? ==>
              steps[i].reply == MempoolReply(false, false) || steps[i].reply == MempoolReply(true, true)
  {
    hide Run, Apply, Attempt;
    var lost, taken := Attempt("a", MempoolReply(false, false)), Attempt("b", MempoolReply(true, true));
    var scan, release := [Scan("coin", COIN)], [Release("a", true)];
    steps := scan + lost + release + taken;
    RunConcat(EMPTY, scan, lost);
    RunConcat(EMPTY, scan + lost, release);
    RunConcat(EMPTY, scan + lost + release, taken);
    ScanCoin();
    var s1 := Run(EMPTY, scan);
    AttemptRuns(s1, "a", MempoolReply(false, false));
    var s2 := Run(s1, lost);
    ReleaseCoin(s2, "a");
    RunOne(s2, Release("a", true));
    var s3 := Run(s2, release);
    AttemptRuns(s3, "b", MempoolReply(true, true));
    var s := Run(s3, taken);
    assert "coin" in s.sends["a"].ids && "coin" in s.sends["b"].ids;
    AttemptReplies("a", MempoolReply(false, false));
    AttemptReplies("b", MempoolReply(true, true));
  }

  lemma ScanCoin()
    ensures Run(EMPTY, [Scan("coin", COIN)]) == EMPTY.(coins := Coins(Confirmed))
  {
    RunOne(EMPTY, Scan("coin", COIN));
  }

  lemma AttemptReplies(x: string, reply: Reply)
    ensures forall i :: 0 <= i < |Attempt(x, reply)| && Attempt(x, reply)[i].Broadcast? ==>
              Attempt(x, reply)[i].reply == reply
  {
  }

  lemma RunTwo(s: State, a: Step, b: Step)
    ensures Run(s, [a, b]) == Apply(Apply(s, a), b)
  {
    hide Apply;
    assert [a, b][1..] == [b] && [b][1..] == [];
    assert Run(Apply(s, a), [b]) == Run(Apply(Apply(s, a), b), []);
  }

  lemma RunOne(s: State, step: Step)
    ensures Run(s, [step]) == Apply(s, step)
  {
    hide Apply;
    assert [step][1..] == [];
  }

  lemma {:induction false} RunConcat(s: State, xs: seq<Step>, ys: seq<Step>)
    ensures Run(s, xs + ys) == Run(Run(s, xs), ys)
    decreases xs
  {
    hide Apply;
    if xs == [] {
      assert xs + ys == ys;
    } else {
      assert (xs + ys)[1..] == xs[1..] + ys;
      RunConcat(Apply(s, xs[0]), xs[1..], ys);
    }
  }
}
