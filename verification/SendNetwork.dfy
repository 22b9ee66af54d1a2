/**
  When two transactions on the network can spend one coin: the exact condition on what the provider
  answers to a broadcast, and what follows for the provider and the comparison in Service.Send.
 */
module SendNetwork {
  import opened Common
  import opened UtxoStore
  import opened SendProtocol

  // Whether a broadcast reached the network, and what Send was told.
  type Answer = (bool, Reply)

  ghost predicate AnswersWithin(steps: seq<Step>, allowed: set<Answer>) {
    forall i :: 0 <= i < |steps| && steps[i].Broadcast? ==> (steps[i].delivered, steps[i].reply) in allowed
  }

  ghost predicate DeliveredApart(s: State) {
    forall x, y :: x in s.sends && y in s.sends && x != y && s.sends[x].delivered && s.sends[y].delivered ==> !SharesCoin(s, x, y)
  }

  // Whatever else is interleaved, answers out of this set never let two transactions with a common
  // input reach the network.
  ghost predicate NetworkSafe(allowed: set<Answer>) {
    forall steps :: AnswersWithin(steps, allowed) ==> DeliveredApart(Run(EMPTY, steps))
  }

  // A delivered transaction is answered with acceptance or with the sentinel Send recognises.
  predicate Truthful(a: Answer) {
    a.0 ==> a.1.Taken? || a.1.BareUnknown?
  }

  // ---- truthful answers are enough ----

  ghost predicate NeverFailing(s: State) {
    forall x :: x in s.sends && s.sends[x].delivered ==>
      var p := s.sends[x].phase; p.Accepted? || p.Unknown? || p.Recorded? || p.Finished?
  }

  lemma NeverFailingStep(s: State, step: Step)
    requires NeverFailing(s) && (step.Broadcast? ==> Truthful((step.delivered, step.reply)))
    ensures NeverFailing(Apply(s, step))
  {
    hide Upsert, Move, Orphan, UtxoStore.Spend, AllReserved;
  }

  lemma {:induction false} NeverFailingRun(s: State, steps: seq<Step>, allowed: set<Answer>)
    requires NeverFailing(s) && AnswersWithin(steps, allowed) && forall a :: a in allowed ==> Truthful(a)
    ensures NeverFailing(Run(s, steps))
    decreases steps
  {
    hide NeverFailing, Apply;
    if steps != [] {
      NeverFailingStep(s, steps[0]);
      assert AnswersWithin(steps[1..], allowed);
      NeverFailingRun(Apply(s, steps[0]), steps[1..], allowed);
    }
  }

  lemma TruthfulIsSafe(allowed: set<Answer>)
    requires forall a :: a in allowed ==> Truthful(a)
    ensures NetworkSafe(allowed)
  {
    hide Run, SharesCoin;
    forall steps | AnswersWithin(steps, allowed)
      ensures DeliveredApart(Run(EMPTY, steps))
    {
      NeverFailingRun(EMPTY, steps, allowed);
      var s := Run(EMPTY, steps);
      forall x, y | x in s.sends && y in s.sends && x != y && s.sends[x].delivered && s.sends[y].delivered
        ensures !SharesCoin(s, x, y)
      {
        DeliveredDisjoint(steps, x, y);
      }
    }
  }

  // ---- and needed ----

  // The coin is scanned, sent with the untruthful answer, released, and sent again.
  function Twice(reply: Reply): seq<Step> {
    [Scan("coin", COIN)] + Attempt("a", reply) + [Release("a", true)] + Attempt("b", reply)
  }

  lemma TwiceAnswers(reply: Reply, allowed: set<Answer>)
    requires (true, reply) in allowed
    ensures AnswersWithin(Twice(reply), allowed)
  {
    forall i | 0 <= i < |Twice(reply)| && Twice(reply)[i].Broadcast?
      ensures Twice(reply)[i].delivered && Twice(reply)[i].reply == reply
    {
    }
  }

  lemma TwiceDelivers(reply: Reply)
    requires !Truthful((true, reply))
    ensures !DeliveredApart(Run(EMPTY, Twice(reply)))
  {
    hide Run, Apply, Attempt;
    var scan, release := [Scan("coin", COIN)], [Release("a", true)];
    var first, second := Attempt("a", reply), Attempt("b", reply);
    RunConcat(EMPTY, scan, first);
    RunConcat(EMPTY, scan + first, release);
    RunConcat(EMPTY, scan + first + release, second);
    ScanCoin();
    var s1 := Run(EMPTY, scan);
    AttemptRuns(s1, "a", reply);
    var s2 := Run(s1, first);
    ReleaseCoin(s2, "a");
    RunOne(s2, Release("a", true));
    var s3 := Run(s2, release);
    AttemptRuns(s3, "b", reply);
    var s := Run(s3, second);
    assert "coin" in s.sends["a"].ids && "coin" in s.sends["b"].ids;
    assert SharesCoin(s, "a", "b");
  }

  // Transactions on the network never share an input, under any interleaving, if and only if every
  // delivered one is answered truthfully.
  lemma NetworkSafeIff(allowed: set<Answer>)
    ensures NetworkSafe(allowed) <==> forall a :: a in allowed ==> Truthful(a)
  {
    if a :| a in allowed && !Truthful(a) {
      TwiceAnswers(a.1, allowed);
      TwiceDelivers(a.1);
      hide Run, Twice, DeliveredApart;
      assert AnswersWithin(Twice(a.1), allowed) && !DeliveredApart(Run(EMPTY, Twice(a.1)));
    } else {
      TruthfulIsSafe(allowed);
      hide NetworkSafe;
    }
  }

  // ---- the provider ----

  // What happens to a post, and the error as Send would see it if it unwrapped the provider's.
  function UnwrappedReply(connected: bool, accepted: bool): Reply {
    if !connected then BareUnknown else MempoolReply(connected, accepted)
  }

  // The answers of the provider: an accepted post was delivered, a lost connection leaves it open,
  // and a refused one may have been delivered or not, as the parameter says.
  function Answers(reply: (bool, bool) -> Reply, refusedMayBeDelivered: bool): set<Answer> {
    {(true, reply(true, true)), (true, reply(false, false)), (false, reply(false, false)), (false, reply(true, false))}
    + if refusedMayBeDelivered then {(true, reply(true, false))} else {}
  }

  // As written, with the wrapped error compared by ==, the network is not safe, even if a refused
  // post was certainly not delivered.
  lemma WrittenComparisonUnsafe(refusedMayBeDelivered: bool)
    ensures !NetworkSafe(Answers(MempoolReply, refusedMayBeDelivered))
  {
    var allowed := Answers(MempoolReply, refusedMayBeDelivered);
    assert (true, NetworkError) in allowed && !Truthful((true, NetworkError));
    NetworkSafeIff(allowed);
    hide NetworkSafe;
  }

  // Were the error unwrapped before the comparison, the network would be safe exactly if refused
  // posts are never delivered.
  lemma UnwrappedComparisonSafeIff(refusedMayBeDelivered: bool)
    ensures NetworkSafe(Answers(UnwrappedReply, refusedMayBeDelivered)) <==> !refusedMayBeDelivered
  {
    var allowed := Answers(UnwrappedReply, refusedMayBeDelivered);
    NetworkSafeIff(allowed);
    hide NetworkSafe;
    assert refusedMayBeDelivered ==> (true, HttpError) in allowed && !Truthful((true, HttpError));
  }
}
