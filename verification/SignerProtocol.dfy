/**
  Concurrent requests against the signer (signer/main.go): claim, execute, then save or release.
  The store's mutex makes each store call one step; steps of different requests interleave freely.
 */
module SignerProtocol {
  import opened Common
  import opened SignerStore

  datatype Phase =
    | Executing
    | Executed(response: string)
    | Replayed(response: string)
    | Conflict
    | Failed

  datatype Request = Request(key: string, phase: Phase)

  datatype System = System(store: Store, requests: seq<Request>)

  datatype Step =
    | Arrive(key: string)
    | Succeed(request: nat, response: string)
    | Fail(request: nat)

  const START: System := System(FRESH, [])

  predicate Runs(sys: System, i: nat) {
    i < |sys.requests| && sys.requests[i].phase.Executing?
  }

  function Next(sys: System, step: Step): System {
    match step
    case Arrive(key) =>
      var (store, reply) := ClaimResult(sys.store, key);
      var phase := match reply
        case Claimed => Executing
        case Saved(response) => Replayed(response)
        case Busy => Conflict;
      System(store, sys.requests + [Request(key, phase)])
    case Succeed(i, response) =>
      if !Runs(sys, i) then sys
      else System(SaveResult(sys.store, sys.requests[i].key, response),
                  sys.requests[i := sys.requests[i].(phase := Executed(response))])
    case Fail(i) =>
      if !Runs(sys, i) then sys
      else System(ReleaseClaim(sys.store, sys.requests[i].key),
                  sys.requests[i := sys.requests[i].(phase := Failed)])
  }

  function Run(sys: System, steps: seq<Step>): System
    decreases steps
  {
    if steps == [] then sys else Run(Next(sys, steps[0]), steps[1..])
  }

  // ---- the invariant ----

  ghost predicate Holds(sys: System, i: nat, key: string) {
    Runs(sys, i) && sys.requests[i].key == key
  }

  // The claim of a key and its holder go together, and a saved key has neither.
  ghost predicate KeySound(sys: System, key: string) {
    && (key in sys.store.locks <==> exists i :: Holds(sys, i, key))
    && (forall i, j :: Holds(sys, i, key) && Holds(sys, j, key) ==> i == j)
    && (key in sys.store.results ==> key !in sys.store.locks)
  }

  // Whoever was answered was answered with the saved response.
  ghost predicate AnswerSound(sys: System, r: Request) {
    r.key != "" && (r.phase.Executed? || r.phase.Replayed?) ==>
      r.key in sys.store.results && sys.store.results[r.key] == r.phase.response
  }

  ghost predicate OneExecution(sys: System, i: nat, j: nat)
    requires i < j < |sys.requests|
  {
    var a, b := sys.requests[i], sys.requests[j];
    a.key == b.key && a.key != "" ==> !(a.phase.Executed? && b.phase.Executed?)
  }

  ghost predicate Inv(sys: System) {
    && (forall key :: key != "" ==> KeySound(sys, key))
    && (forall i :: 0 <= i < |sys.requests| ==> AnswerSound(sys, sys.requests[i]))
    && (forall i, j :: 0 <= i < j < |sys.requests| ==> OneExecution(sys, i, j))
  }

  // ---- steps ----

  lemma ArriveKey(sys: System, arriving: string, key: string)
    requires key != "" && KeySound(sys, key)
    ensures KeySound(Next(sys, Arrive(arriving)), key)
  {
    var sys' := Next(sys, Arrive(arriving));
    var n := |sys.requests|;
    forall i: nat
      ensures Holds(sys', i, key) <==>
                Holds(sys, i, key) || (i == n && arriving == key && sys'.requests[n].phase.Executing?)
    {
    }
    if key in sys.store.locks {
      var i: nat :| Holds(sys, i, key);
      assert Holds(sys', i, key);
    } else if key in sys'.store.locks {
      assert Holds(sys', n, key);
    }
  }

  lemma ArriveKeeps(sys: System, arriving: string)
    requires Inv(sys)
    ensures Inv(Next(sys, Arrive(arriving)))
  {
    var sys' := Next(sys, Arrive(arriving));
    forall key | key != ""
      ensures KeySound(sys', key)
    {
      assert KeySound(sys, key);
      ArriveKey(sys, arriving, key);
    }
    assert sys'.store.results == sys.store.results;
    forall i | 0 <= i < |sys'.requests|
      ensures AnswerSound(sys', sys'.requests[i])
    {
      if i < |sys.requests| {
        assert AnswerSound(sys, sys.requests[i]);
      }
    }
    forall i, j | 0 <= i < j < |sys'.requests|
      ensures OneExecution(sys', i, j)
    {
      if j < |sys.requests| {
        assert OneExecution(sys, i, j);
      }
    }
    hide KeySound;
  }

  // A request that ends gives up its claim and nobody else's.
  lemma EndKey(sys: System, i: nat, sys': System, key: string)
    requires key != "" && KeySound(sys, key) && Runs(sys, i)
    requires |sys'.requests| == |sys.requests| && !sys'.requests[i].phase.Executing?
    requires forall j :: 0 <= j < |sys.requests| && j != i ==> sys'.requests[j] == sys.requests[j]
    requires sys'.store.locks == sys.store.locks - {sys.requests[i].key}
    requires forall k :: k in sys'.store.results ==> k in sys.store.results || k == sys.requests[i].key
    ensures KeySound(sys', key)
  {
    forall j: nat
      ensures Holds(sys', j, key) <==> Holds(sys, j, key) && j != i
    {
    }
    if key == sys.requests[i].key {
      assert Holds(sys, i, key);
    } else if key in sys.store.locks {
      var j: nat :| Holds(sys, j, key);
      assert Holds(sys', j, key);
    }
  }

  lemma SucceedKeeps(sys: System, i: nat, response: string)
    requires Inv(sys) && Runs(sys, i)
    ensures Inv(Next(sys, Succeed(i, response)))
  {
    var sys' := Next(sys, Succeed(i, response));
    var mine := sys.requests[i].key;
    if mine != "" {
      assert KeySound(sys, mine) && Holds(sys, i, mine);
    }
    forall key | key != ""
      ensures KeySound(sys', key)
    {
      assert KeySound(sys, key);
      if mine != "" {
        EndKey(sys, i, sys', key);
      } else {
        EndEmpty(sys, i, sys', key);
      }
    }
    assert mine != "" ==> mine !in sys.store.results;
    forall j | 0 <= j < |sys'.requests|
      ensures AnswerSound(sys', sys'.requests[j])
    {
      assert AnswerSound(sys, sys.requests[j]);
    }
    forall j, k | 0 <= j < k < |sys'.requests|
      ensures OneExecution(sys', j, k)
    {
      assert OneExecution(sys, j, k) && AnswerSound(sys, sys.requests[j]) && AnswerSound(sys, sys.requests[k]);
    }
    hide KeySound;
  }

  lemma FailKeeps(sys: System, i: nat)
    requires Inv(sys) && Runs(sys, i)
    ensures Inv(Next(sys, Fail(i)))
  {
    var sys' := Next(sys, Fail(i));
    forall key | key != ""
      ensures KeySound(sys', key)
    {
      assert KeySound(sys, key);
      if sys.requests[i].key != "" {
        EndKey(sys, i, sys', key);
      } else {
        EndEmpty(sys, i, sys', key);
      }
    }
    forall j | 0 <= j < |sys'.requests|
      ensures AnswerSound(sys', sys'.requests[j])
    {
      assert AnswerSound(sys, sys.requests[j]);
    }
    forall j, k | 0 <= j < k < |sys'.requests|
      ensures OneExecution(sys', j, k)
    {
      assert OneExecution(sys, j, k);
    }
    hide KeySound;
  }

  lemma EndEmpty(sys: System, i: nat, sys': System, key: string)
    requires key != "" && KeySound(sys, key) && Runs(sys, i) && sys.requests[i].key == ""
    requires sys'.store == sys.store && |sys'.requests| == |sys.requests| && sys'.requests[i].key == ""
    requires forall j :: 0 <= j < |sys.requests| && j != i ==> sys'.requests[j] == sys.requests[j]
    ensures KeySound(sys', key)
  {
    forall j: nat
      ensures Holds(sys', j, key) <==> Holds(sys, j, key)
    {
    }
    if key in sys.store.locks {
      var j: nat :| Holds(sys, j, key);
      assert Holds(sys', j, key);
    }
  }

  lemma StepKeeps(sys: System, step: Step)
    requires Inv(sys)
    ensures Inv(Next(sys, step))
  {
    hide Inv;
    match step
    case Arrive(key) => ArriveKeeps(sys, key);
    case Succeed(i, response) =>
      if Runs(sys, i) {
        SucceedKeeps(sys, i, response);
      }
    case Fail(i) =>
      if Runs(sys, i) {
        FailKeeps(sys, i);
      }
  }

  lemma {:induction false} RunKeeps(sys: System, steps: seq<Step>)
    requires Inv(sys)
    ensures Inv(Run(sys, steps))
    decreases steps
  {
    hide Inv, Next;
    if steps != [] {
      StepKeeps(sys, steps[0]);
      RunKeeps(Next(sys, steps[0]), steps[1..]);
    }
  }

  lemma Reachable(steps: seq<Step>)
    ensures Inv(Run(START, steps))
  {
    assert Inv(START);
    hide Inv;
    RunKeeps(START, steps);
  }

  // ---- over every run ----

  // At most one request at a time executes under a non-empty key, at most one ever completes, and
  // all answers given under the key are the same.
  lemma AtMostOnce(steps: seq<Step>, i: nat, j: nat)
    requires i < j < |Run(START, steps).requests|
    requires Run(START, steps).requests[i].key == Run(START, steps).requests[j].key != ""
    ensures var a, b := Run(START, steps).requests[i].phase, Run(START, steps).requests[j].phase;
            && !(a.Executing? && b.Executing?)
            && !(a.Executed? && b.Executed?)
            && !(a.Executed? && b.Executing?) && !(a.Executing? && b.Executed?)
            && ((a.Executed? || a.Replayed?) && (b.Executed? || b.Replayed?) ==> a.response == b.response)
  {
    Reachable(steps);
    var sys := Run(START, steps);
    hide Run;
    var key := sys.requests[i].key;
    assert KeySound(sys, key) && OneExecution(sys, i, j);
    assert AnswerSound(sys, sys.requests[i]) && AnswerSound(sys, sys.requests[j]);
    assert Holds(sys, i, key) == sys.requests[i].phase.Executing?;
    assert Holds(sys, j, key) == sys.requests[j].phase.Executing?;
  }

  // No claim is left behind: a locked key has a request at work that will save or release it.
  lemma ClaimHasHolder(steps: seq<Step>, key: string)
    requires key in Run(START, steps).store.locks && key != ""
    ensures exists i :: Holds(Run(START, steps), i, key)
  {
    Reachable(steps);
    assert KeySound(Run(START, steps), key);
    hide Run;
  }

  lemma SavedStep(sys: System, step: Step, key: string)
    requires Inv(sys) && key != "" && key in sys.store.results
    ensures key in Next(sys, step).store.results && Next(sys, step).store.results[key] == sys.store.results[key]
  {
    assert KeySound(sys, key);
    if step.Succeed? && Runs(sys, step.request) && sys.requests[step.request].key == key {
      assert Holds(sys, step.request, key);
    }
  }

  // A saved response is never replaced, and every later request under its key is answered with it.
  lemma {:induction false} SavedForever(sys: System, steps: seq<Step>, key: string)
    requires Inv(sys) && key != "" && key in sys.store.results
    ensures var end := Run(sys, steps);
            && key in end.store.results && end.store.results[key] == sys.store.results[key]
            && ClaimResult(end.store, key).1 == Saved(sys.store.results[key])
    decreases steps
  {
    hide Inv, Next;
    if steps != [] {
      SavedStep(sys, steps[0], key);
      StepKeeps(sys, steps[0]);
      SavedForever(Next(sys, steps[0]), steps[1..], key);
    }
  }

  // Requests without a key are not protected: two of them execute side by side.
  lemma EmptyKeyUnprotected()
    ensures var sys := Run(START, [Arrive(""), Arrive("")]);
            |sys.requests| == 2 && Runs(sys, 0) && Runs(sys, 1)
  {
    var one := Next(START, Arrive(""));
    assert [Arrive(""), Arrive("")][1..] == [Arrive("")];
    assert Run(one, [Arrive("")]) == Next(one, Arrive(""));
  }

  ghost predicate BothExecute(steps: seq<Step>, i: nat, j: nat, key: string) {
    var sys := Run(START, steps);
    i < j && Holds(sys, i, key) && Holds(sys, j, key)
  }

  // No two requests ever execute side by side under a key if and only if the key is not empty.
  lemma ProtectedIff(key: string)
    ensures (forall steps, i, j :: !BothExecute(steps, i, j, key)) <==> key != ""
  {
    if key == "" {
      EmptyKeyUnprotected();
      TwoWithoutKey();
      hide Run;
      assert BothExecute([Arrive(""), Arrive("")], 0, 1, key);
    } else {
      hide Run;
      forall steps, i: nat, j: nat
        ensures !BothExecute(steps, i, j, key)
      {
        Reachable(steps);
        assert KeySound(Run(START, steps), key);
      }
    }
  }

  lemma TwoWithoutKey()
    ensures var sys := Run(START, [Arrive(""), Arrive("")]);
            |sys.requests| == 2 && sys.requests[0].key == "" && sys.requests[1].key == ""
  {
    var one := Next(START, Arrive(""));
    assert [Arrive(""), Arrive("")][1..] == [Arrive("")];
    assert Run(one, [Arrive("")]) == Next(one, Arrive(""));
  }
}
