/** The ways a single call to Service.Send can end, step by step, and what each leaves in the tables. */
module SendPaths {
  import opened Common
  import opened UtxoStore
  import opened SendProtocol

  // A state with one confirmed coin and no sends.
  const READY: State := EMPTY.(coins := map["coin" := COIN])

  // The state in which one send of that coin stands, with the coin's status and the send's row.
  function Stand(coin: Coin, phase: Phase, delivered: bool, row: Option<TxStatus>): State {
    State(map["coin" := coin], map["x" := Send(["coin"], phase, delivered)],
          if row.Some? then map["x" := row.value] else map[], {})
  }

  function Held(): Coin {
    COIN.(status := Reserved)
  }

  // Every path starts by taking the coin.
  lemma Takes()
    ensures Run(READY, [Start("x", ["coin"]), Reserve("x", false, true)]) == Stand(Held(), Holding, false, None)
  {
    ReserveCoin(READY, "x");
  }

  lemma TakesAndSaves(reply: Reply)
    ensures Run(READY, Attempt("x", reply)) == Stand(Held(), Outcome(reply), true, Some(TxSigned))
  {
    AttemptRuns(READY, "x", reply);
  }

  const SPENT: Coin := COIN.(status := Spent, spentBy := "x")

  lemma RecordsIt()
    ensures Apply(Stand(Held(), Accepted, true, Some(TxSigned)), Record("x", true)) == Stand(Held(), Recorded, true, Some(TxBroadcast))
  {
  }

  lemma MarksIt()
    ensures Apply(Stand(Held(), Recorded, true, Some(TxBroadcast)), MarkSpent("x", true)) ==
            Stand(SPENT, Finished, true, Some(TxBroadcast))
  {
    assert UtxoStore.Spend(map["coin" := Held()], Elements(["coin"]), "x") == map["coin" := SPENT];
  }

  lemma SpendsTheCoin()
    ensures Run(Stand(Held(), Accepted, true, Some(TxSigned)), [Record("x", true), MarkSpent("x", true)]) ==
            Stand(SPENT, Finished, true, Some(TxBroadcast))
  {
    hide Run, Apply, Stand;
    RecordsIt();
    MarksIt();
    RunTwo(Stand(Held(), Accepted, true, Some(TxSigned)), Record("x", true), MarkSpent("x", true));
  }

  // The tracker reads a recorded row and notes it as confirmed or still pending.
  lemma Tracks(row: TxStatus, confirmed: bool)
    requires row == TxBroadcast || row == TxPending
    ensures var s := Stand(SPENT, Finished, true, Some(row));
            Run(s, [TrackRead("x"), TrackWrite("x", confirmed)]) ==
            s.(seen := {"x"}, rows := map["x" := if confirmed then TxConfirmed else TxPending])
  {
    var s := Stand(SPENT, Finished, true, Some(row));
    RunTwo(s, TrackRead("x"), TrackWrite("x", confirmed));
    hide Run;
    assert Apply(s, TrackRead("x")) == s.(seen := {"x"});
  }

  // An accepted broadcast is recorded, its coin is spent by it, and the tracker confirms it.
  lemma OrdinarySend()
    ensures Run(READY, Attempt("x", Taken) + [Record("x", true), MarkSpent("x", true)] + [TrackRead("x"), TrackWrite("x", true)]) ==
            Stand(SPENT, Finished, true, Some(TxConfirmed)).(seen := {"x"})
  {
    hide Attempt, Run, Apply;
    TakesAndSaves(Taken);
    SpendsTheCoin();
    Tracks(TxBroadcast, true);
    RunConcat(READY, Attempt("x", Taken), [Record("x", true), MarkSpent("x", true)]);
    RunConcat(READY, Attempt("x", Taken) + [Record("x", true), MarkSpent("x", true)], [TrackRead("x"), TrackWrite("x", true)]);
  }

  // An unclear broadcast is recorded as broadcast, and its coin stays reserved.
  lemma UnclearSend()
    ensures Run(READY, Attempt("x", BareUnknown) + [Record("x", true), MarkSpent("x", true)]) ==
            Stand(Held(), Finished, true, Some(TxBroadcast))
  {
    hide Attempt, Run;
    var s1 := Stand(Held(), Unknown, true, Some(TxSigned));
    var s2 := Stand(Held(), Finished, true, Some(TxBroadcast));
    TakesAndSaves(BareUnknown);
    assert Apply(s1, Record("x", true)) == s2 && Apply(s2, MarkSpent("x", true)) == s2;
    RunTwo(s1, Record("x", true), MarkSpent("x", true));
    RunConcat(READY, Attempt("x", BareUnknown), [Record("x", true), MarkSpent("x", true)]);
  }

  // A broadcast answered with any other error gives the coin back and marks the row failed.
  lemma RefusedSend(reply: Reply)
    requires reply == NetworkError || reply == HttpError
    ensures Run(READY, Attempt("x", reply) + [Release("x", true), MarkFailed("x", true)]) ==
            Stand(COIN, Released(true), true, Some(TxFailed))
  {
    hide Attempt, Run;
    var s1 := Stand(Held(), Failing(true), true, Some(TxSigned));
    var s2 := Stand(COIN, Released(true), true, Some(TxSigned));
    TakesAndSaves(reply);
    ReleaseCoin(s1, "x");
    assert Apply(s1, Release("x", true)) == s2;
    assert Apply(s2, MarkFailed("x", true)) == Stand(COIN, Released(true), true, Some(TxFailed));
    RunTwo(s1, Release("x", true), MarkFailed("x", true));
    RunConcat(READY, Attempt("x", reply), [Release("x", true), MarkFailed("x", true)]);
  }

  // A send that cannot be built gives the coin back, writes no row and delivers nothing.
  lemma UnbuiltSend()
    ensures Run(READY, [Start("x", ["coin"]), Reserve("x", false, true)] + [FailBuild("x"), Release("x", true)]) ==
            Stand(COIN, Released(false), false, None)
  {
    hide Run;
    var s1 := Stand(Held(), Holding, false, None);
    var s2 := Stand(Held(), Failing(false), false, None);
    Takes();
    assert Apply(s1, FailBuild("x")) == s2;
    assert Move(s2.coins, Elements(["coin"]), Reserved, Confirmed) == map["coin" := COIN];
    assert Apply(s2, Release("x", true)) == Stand(COIN, Released(false), false, None);
    RunTwo(s1, FailBuild("x"), Release("x", true));
    RunConcat(READY, [Start("x", ["coin"]), Reserve("x", false, true)], [FailBuild("x"), Release("x", true)]);
  }

  // A send whose row cannot be saved gives the coin back and is not broadcast.
  lemma UnsavedSend()
    ensures var s := Stand(Held(), Signed, false, None);
            Run(s, [Save("x", SaveFailed(false)), Release("x", true)]) == Stand(COIN, Released(false), false, None)
  {
    var s := Stand(Held(), Signed, false, None);
    var t := Stand(Held(), Failing(false), false, None);
    assert Apply(s, Save("x", SaveFailed(false))) == t;
    assert Move(t.coins, Elements(["coin"]), Reserved, Confirmed) == map["coin" := COIN];
    assert Apply(t, Release("x", true)) == Stand(COIN, Released(false), false, None);
    RunTwo(s, Save("x", SaveFailed(false)), Release("x", true));
  }
}
