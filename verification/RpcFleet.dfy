/** The fleet of RPC endpoints (signer/rpc_fleet.go): who is asked to send next. */
module RpcFleet {
  import opened Common
  import opened Text
  import opened RpcEndpoint

  datatype Candidate = Candidate(id: nat, score: real)

  // ---- ordering ----

  ghost predicate SortedBy(s: seq<Candidate>) {
    forall i, j :: 0 <= i < j < |s| ==> s[i].score <= s[j].score
  }

  ghost predicate Permutes(s: seq<Candidate>, t: seq<Candidate>) {
    multiset(s) == multiset(t)
  }

  // Everything before i is in its place, and position i holds the least of what follows up to j.
  ghost predicate Placed(s: seq<Candidate>, i: nat, j: nat)
    requires i < |s| && j <= |s|
  {
    && (forall p, q :: 0 <= p < i && p < q < |s| ==> s[p].score <= s[q].score)
    && forall k :: i < k < j ==> s[i].score <= s[k].score
  }

  // One comparison of the exchange sort.
  function Exchanged(s: seq<Candidate>, i: nat, j: nat): seq<Candidate>
    requires i < j < |s|
  {
    if s[j].score < s[i].score then s[i := s[j]][j := s[i]] else s
  }

  lemma ExchangePermutes(s: seq<Candidate>, i: nat, j: nat)
    requires i < j < |s|
    ensures |Exchanged(s, i, j)| == |s| && Permutes(Exchanged(s, i, j), s)
  {
    var t := s[i := s[j]][j := s[i]];
    assert s == s[..i] + [s[i]] + s[i + 1..j] + [s[j]] + s[j + 1..];
    assert t == s[..i] + [s[j]] + s[i + 1..j] + [s[i]] + s[j + 1..];
  }

  lemma ExchangePlaces(s: seq<Candidate>, i: nat, j: nat)
    requires i < j < |s| && Placed(s, i, j)
    ensures Placed(Exchanged(s, i, j), i, j + 1)
  {
  }

  lemma PlacedNext(s: seq<Candidate>, i: nat)
    requires i < |s| && Placed(s, i, |s|)
    ensures if i + 1 < |s| then Placed(s, i + 1, i + 2) else SortedBy(s)
  {
  }

  // The exchange sort of sendCandidates.
  method SortCandidates(a: array<Candidate>)
    modifies a
    ensures SortedBy(a[..]) && Permutes(a[..], old(a[..]))
  {
    hide Placed, Permutes, SortedBy, Exchanged;
    SwapStart(a[..]);
    for i := 0 to a.Length
      invariant Permutes(a[..], old(a[..]))
      invariant if i < a.Length then Placed(a[..], i, i + 1) else SortedBy(a[..])
    {
      for j := i + 1 to a.Length
        invariant Permutes(a[..], old(a[..]))
        invariant Placed(a[..], i, j)
      {
        ghost var s := a[..];
        Exchange(a, i, j);
        ExchangePlaces(s, i, j);
        ExchangePermutes(s, i, j);
        PermutesThrough(a[..], s, old(a[..]));
      }
      PlacedNext(a[..], i);
    }
  }

  method Exchange(a: array<Candidate>, i: nat, j: nat)
    requires i < j < a.Length
    modifies a
    ensures a[..] == Exchanged(old(a[..]), i, j)
  {
    if a[j].score < a[i].score {
      a[i], a[j] := a[j], a[i];
    }
  }

  lemma SwapStart(s: seq<Candidate>)
    ensures Permutes(s, s) && if |s| > 0 then Placed(s, 0, 1) else SortedBy(s)
  {
  }

  lemma PermutesThrough(s: seq<Candidate>, t: seq<Candidate>, u: seq<Candidate>)
    requires Permutes(s, t) && Permutes(t, u)
    ensures Permutes(s, u)
  {
  }

  // A sorted copy of the list.
  method Rank(found: seq<Candidate>) returns (sorted: seq<Candidate>)
    ensures SortedBy(sorted) && Permutes(sorted, found)
  {
    var a := new Candidate[|found|](i requires 0 <= i < |found| => found[i]);
    assert a[..] == found;
    SortCandidates(a);
    sorted := a[..];
  }

  // ---- choosing ----

  ghost predicate DistinctIds(s: seq<Candidate>) {
    forall i, j :: 0 <= i < j < |s| ==> s[i].id != s[j].id
  }

  // The best two, rotated.
  function Turned(sorted: seq<Candidate>, rotation: nat): seq<Candidate> {
    var top := if |sorted| > 2 then 2 else |sorted|;
    if top > 1 then sorted[rotation % top..top] + sorted[..rotation % top] else sorted
  }

  function Chosen(sorted: seq<Candidate>, rotation: nat, limit: int): seq<Candidate> {
    var turned := Turned(sorted, rotation);
    if limit <= 0 || limit > |turned| then turned else turned[..limit]
  }

  lemma TurnedCases(sorted: seq<Candidate>, rotation: nat)
    ensures |sorted| < 2 ==> Turned(sorted, rotation) == sorted
    ensures |sorted| >= 2 ==> 
              Turned(sorted, rotation) == if rotation % 2 == 0 then [sorted[0], sorted[1]] else [sorted[1], sorted[0]]
  {
    if |sorted| >= 2 {
      if rotation % 2 == 0 {
        assert sorted[0..2] + sorted[..0] == [sorted[0], sorted[1]];
      } else {
        assert sorted[1..2] + sorted[..1] == [sorted[1], sorted[0]];
      }
    }
  }

  // How many are chosen.
  function ChosenCount(available: nat, limit: int): nat {
    var top := if available > 2 then 2 else available;
    if limit <= 0 || limit > top then top else limit
  }

  lemma ChosenAreFirst(sorted: seq<Candidate>, rotation: nat, limit: int)
    ensures var r := Chosen(sorted, rotation, limit);
            && |r| == ChosenCount(|sorted|, limit)
            && forall k :: 0 <= k < |r| ==> OneOfFirst(sorted, r[k])
  {
    TurnedCases(sorted, rotation);
    hide Turned;
    var turned := Turned(sorted, rotation);
    assert forall k :: 0 <= k < |turned| ==> turned[k] == sorted[0] || (|sorted| >= 2 && turned[k] == sorted[1]);
  }

  predicate OneOfFirst(sorted: seq<Candidate>, c: Candidate) {
    |sorted| > 0 && (c == sorted[0] || (|sorted| >= 2 && c == sorted[1]))
  }

  lemma ChosenDistinct(sorted: seq<Candidate>, rotation: nat, limit: int)
    requires DistinctIds(sorted)
    ensures DistinctIds(Chosen(sorted, rotation, limit))
  {
    TurnedCases(sorted, rotation);
    hide Turned;
  }

  lemma SortKeepsDistinct(s: seq<Candidate>, t: seq<Candidate>)
    requires DistinctIds(s) && multiset(s) == multiset(t)
    ensures DistinctIds(t)
  {
    forall i, j | 0 <= i < j < |t|
      ensures t[i].id != t[j].id
    {
      assert t[i] in multiset(s) && t[j] in multiset(s);
      var a :| 0 <= a < |s| && s[a] == t[i];
      var b :| 0 <= b < |s| && s[b] == t[j];
      if a == b {
        TwiceIn(t, i, j);
        OnceIn(s, a);
      }
    }
  }

  lemma TwiceIn(t: seq<Candidate>, i: nat, j: nat)
    requires i < j < |t| && t[i] == t[j]
    ensures multiset(t)[t[i]] >= 2
  {
    assert t == t[..j] + [t[j]] + t[j + 1..];
    assert t[i] in t[..j];
  }

  lemma OnceIn(s: seq<Candidate>, a: nat)
    requires DistinctIds(s) && a < |s|
    ensures multiset(s)[s[a]] == 1
  {
    assert s == s[..a] + [s[a]] + s[a + 1..];
    assert s[a] !in s[..a] && s[a] !in s[a + 1..];
  }

  // ---- what a call sees ----

  function Visited(s: State, now: int, clear: bool): State {
    Tidy(if clear then s.(cooldown := None) else s, now)
  }

  function VisitAll(states: seq<State>, now: int, clear: bool): (r: seq<State>)
    ensures |r| == |states| && forall i :: 0 <= i < |r| ==> r[i] == Visited(states[i], now, clear)
  {
    seq(|states|, i requires 0 <= i < |states| => Visited(states[i], now, clear))
  }

  function ReadySet(states: seq<State>, now: int): set<nat> {
    set i: nat | i < |states| && Ready(states[i], now)
  }

  // The states the choice is made from: when nobody is ready, cooldowns are cleared.
  function Base(states: seq<State>, now: int): seq<State> {
    var first := VisitAll(states, now, false);
    if ReadySet(first, now) != {} then first else VisitAll(first, now, true)
  }

  // Only picked endpoints are charged.
  function Charged(states: seq<State>, now: int, picked: seq<nat>): (r: seq<State>)
    ensures |r| == |states| && forall i :: 0 <= i < |r| ==> r[i] == if i in picked then Reserve(states[i], now) else states[i]
  {
    seq(|states|, i requires 0 <= i < |states| => if i in picked then Reserve(states[i], now) else states[i])
  }

  // i is ready and scores better than p.
  predicate Beats(base: seq<State>, now: int, i: nat, p: nat)
    requires p < |base|
  {
    i in ReadySet(base, now) && Score(base[i], now) < Score(base[p], now)
  }

  // A right choice: distinct ready endpoints, as many as asked for up to two, each among the best
  // two; and when two are chosen nobody else beats either.
  ghost predicate Picks(base: seq<State>, now: int, limit: int, picked: seq<nat>) {
    && (forall k :: 0 <= k < |picked| ==> picked[k] in ReadySet(base, now))
    && (forall j, k :: 0 <= j < k < |picked| ==> picked[j] != picked[k])
    && |picked| == ChosenCount(|ReadySet(base, now)|, limit)
    && (forall k :: 0 <= k < |picked| ==>
          && (forall i, j :: Beats(base, now, i, picked[k]) && Beats(base, now, j, picked[k]) ==> i == j)
          && (|picked| == 2 ==> forall i :: Beats(base, now, i, picked[k]) ==> i in picked))
  }

  ghost predicate Offers(base: seq<State>, now: int, c: Candidate) {
    c.id in ReadySet(base, now) && c.score == Score(base[c.id], now)
  }

  function Ids(s: seq<Candidate>): (r: seq<nat>)
    ensures |r| == |s| && forall k :: 0 <= k < |s| ==> r[k] == s[k].id
  {
    seq(|s|, k requires 0 <= k < |s| => s[k].id)
  }

  // The list holds every ready endpoint once, with its score.
  ghost predicate Collected(base: seq<State>, now: int, found: seq<Candidate>) {
    && DistinctIds(found)
    && (forall k :: 0 <= k < |found| ==> Offers(base, now, found[k]))
    && forall i :: i in ReadySet(base, now) ==> i in Ids(found)
  }

  lemma CollectedSorted(base: seq<State>, now: int, found: seq<Candidate>, sorted: seq<Candidate>)
    requires Collected(base, now, found) && Permutes(sorted, found)
    ensures Collected(base, now, sorted)
  {
    hide Offers, ReadySet;
    SortKeepsDistinct(found, sorted);
    forall k | 0 <= k < |sorted|
      ensures Offers(base, now, sorted[k])
    {
      assert sorted[k] in multiset(found);
      var j :| 0 <= j < |found| && found[j] == sorted[k];
    }
    forall i | i in ReadySet(base, now)
      ensures i in Ids(sorted)
    {
      var j :| 0 <= j < |found| && Ids(found)[j] == i;
      assert found[j] in multiset(sorted);
      var k :| 0 <= k < |sorted| && sorted[k] == found[j];
      assert Ids(sorted)[k] == i;
    }
  }

  function IdSet(ids: seq<nat>): set<nat> {
    set i | i in ids
  }

  lemma {:induction false} DistinctCount(ids: seq<nat>)
    requires forall i, j :: 0 <= i < j < |ids| ==> ids[i] != ids[j]
    ensures |IdSet(ids)| == |ids|
    decreases ids
  {
    if ids != [] {
      var n := |ids| - 1;
      DistinctCount(ids[..n]);
      assert IdSet(ids) == IdSet(ids[..n]) + {ids[n]};
      assert ids[n] !in ids[..n];
    } else {
      assert IdSet(ids) == {};
    }
  }

  lemma CollectedCount(base: seq<State>, now: int, found: seq<Candidate>)
    requires Collected(base, now, found)
    ensures |found| == |ReadySet(base, now)|
  {
    var ids := Ids(found);
    DistinctCount(ids);
    assert forall k :: 0 <= k < |found| ==> Offers(base, now, found[k]);
    assert IdSet(ids) == ReadySet(base, now);
  }

  // Whoever beats the candidate at position p of the sorted list stands before it.
  lemma BeatersBefore(base: seq<State>, now: int, sorted: seq<Candidate>, p: nat, i: nat)
    requires Collected(base, now, sorted) && SortedBy(sorted) && p < |sorted|
    requires Offers(base, now, sorted[p]) && Beats(base, now, i, sorted[p].id)
    ensures exists q :: 0 <= q < p && sorted[q].id == i
  {
    var q :| 0 <= q < |sorted| && Ids(sorted)[q] == i;
    assert Offers(base, now, sorted[q]);
    hide Score, ReadySet;
    assert sorted[q].id == i;
  }

  lemma ChosenPicks(base: seq<State>, now: int, sorted: seq<Candidate>, rotation: nat, limit: int)
    requires Collected(base, now, sorted) && SortedBy(sorted)
    ensures Picks(base, now, limit, Ids(Chosen(sorted, rotation, limit)))
  {
    var chosen := Chosen(sorted, rotation, limit);
    var picked := Ids(chosen);
    ChosenAreFirst(sorted, rotation, limit);
    ChosenDistinct(sorted, rotation, limit);
    hide Chosen;
    CollectedCount(base, now, sorted);
    hide Score, ReadySet, Beats;
    forall k | 0 <= k < |picked|
      ensures picked[k] in ReadySet(base, now)
      ensures forall i, j :: Beats(base, now, i, picked[k]) && Beats(base, now, j, picked[k]) ==> i == j
      ensures |picked| == 2 ==> forall i :: Beats(base, now, i, picked[k]) ==> i in picked
    {
      assert OneOfFirst(sorted, chosen[k]);
      var p := if chosen[k] == sorted[0] then 0 else 1;
      assert Offers(base, now, sorted[p]);
      OnlyFirstBeats(base, now, sorted, p);
      if |picked| == 2 {
        FirstIsPicked(sorted, rotation, limit);
      }
    }
    assert DistinctIds(chosen);
  }

  lemma OnlyFirstBeats(base: seq<State>, now: int, sorted: seq<Candidate>, p: nat)
    requires Collected(base, now, sorted) && SortedBy(sorted) && p < |sorted| && p < 2
    ensures sorted[p].id in ReadySet(base, now)
    ensures forall i :: Beats(base, now, i, sorted[p].id) ==> i == sorted[0].id
  {
    assert Offers(base, now, sorted[p]);
    forall i | Beats(base, now, i, sorted[p].id)
      ensures i == sorted[0].id
    {
      BeatersBefore(base, now, sorted, p, i);
    }
  }

  lemma FirstIsPicked(sorted: seq<Candidate>, rotation: nat, limit: int)
    requires |Chosen(sorted, rotation, limit)| == 2
    ensures |sorted| >= 2 && sorted[0].id in Ids(Chosen(sorted, rotation, limit))
  {
    TurnedCases(sorted, rotation);
    hide Turned;
    var c := Chosen(sorted, rotation, limit);
    assert c[0] == sorted[0] || c[1] == sorted[0];
    assert Ids(c)[0] == sorted[0].id || Ids(c)[1] == sorted[0].id;
  }

  // Turns alternate: on even turns the best comes first, on odd turns second.
  ghost predicate Turns(base: seq<State>, now: int, rotation: nat, picked: seq<nat>) {
    && (forall k :: 0 <= k < |picked| ==> picked[k] < |base|)
    && (picked != [] && (rotation % 2 == 0 || |ReadySet(base, now)| < 2) ==> forall i :: !Beats(base, now, i, picked[0]))
    && (|picked| == 2 && rotation % 2 == 1 ==> forall i :: !Beats(base, now, i, picked[1]))
  }

  lemma ChosenTurns(base: seq<State>, now: int, sorted: seq<Candidate>, rotation: nat, limit: int)
    requires Collected(base, now, sorted) && SortedBy(sorted)
    ensures Turns(base, now, rotation, Ids(Chosen(sorted, rotation, limit)))
  {
    ChosenPicks(base, now, sorted, rotation, limit);
    CollectedCount(base, now, sorted);
    TurnedCases(sorted, rotation);
    var picked := Ids(Chosen(sorted, rotation, limit));
    PicksDistinct(base, now, limit, picked);
    hide Score, ReadySet, Beats, Turned, Picks;
    if |sorted| > 0 {
      NobodyBeatsFirst(base, now, sorted);
    }
  }

  lemma NobodyBeatsFirst(base: seq<State>, now: int, sorted: seq<Candidate>)
    requires Collected(base, now, sorted) && SortedBy(sorted) && |sorted| > 0
    ensures sorted[0].id < |base| && forall i :: !Beats(base, now, i, sorted[0].id)
  {
    assert Offers(base, now, sorted[0]);
    forall i
      ensures !Beats(base, now, i, sorted[0].id)
    {
      if Beats(base, now, i, sorted[0].id) {
        BeatersBefore(base, now, sorted, 0, i);
      }
    }
  }

  // ---- consequences of a right choice ----

  lemma TidyKeeps(s: State, now: int)
    ensures Tidy(s, now).disabled == s.disabled && Tidy(s, now).cooldown == s.cooldown
  {
    hide Within, DecaySteps;
  }

  lemma BaseReady(states: seq<State>, now: int)
    ensures |Base(states, now)| == |states|
    ensures forall i :: i in ReadySet(Base(states, now), now) ==> !states[i].disabled
    ensures ReadySet(Base(states, now), now) == {} <==> forall i :: 0 <= i < |states| ==> states[i].disabled
  {
    var first := VisitAll(states, now, false);
    var second := VisitAll(first, now, true);
    forall i | 0 <= i < |states|
      ensures first[i].disabled == states[i].disabled == second[i].disabled && second[i].cooldown.None?
    {
      TidyKeeps(states[i], now);
      TidyKeeps(first[i].(cooldown := None), now);
    }
    hide Visited;
    if ReadySet(first, now) == {} {
      assert forall i :: i in ReadySet(second, now) <==> 0 <= i < |states| && !states[i].disabled;
    } else {
      assert forall i :: i in ReadySet(first, now) ==> !states[i].disabled;
    }
  }

  // No disabled endpoint is ever picked, and somebody is picked unless all are disabled.
  lemma PickedUsable(states: seq<State>, now: int, limit: int, picked: seq<nat>)
    requires Picks(Base(states, now), now, limit, picked)
    ensures forall k :: 0 <= k < |picked| ==> picked[k] < |states| && !states[picked[k]].disabled
    ensures |picked| <= 2 && (limit > 0 ==> |picked| <= limit)
    ensures picked == [] <==> forall i :: 0 <= i < |states| ==> states[i].disabled
  {
    BaseReady(states, now);
    hide Beats, Base;
    assert |ReadySet(Base(states, now), now)| == 0 <==> ReadySet(Base(states, now), now) == {};
  }

  // ---- the fleet ----

  class Endpoint {
    const id: nat
    const url: string
    var state: State

    constructor (id: nat, url: string, now: int)
      ensures this.id == id && this.url == url && state == Initial(now)
    {
      this.id, this.url, state := id, url, Initial(now);
    }

    // Prunes, decays, and gives the score when the endpoint may be used.
    method ScoreAt(now: int) returns (score: Option<real>)
      modifies this
      ensures state == Tidy(old(state), now)
      ensures score == if Ready(state, now) then Some(Score(state, now)) else None
    {
      var keep := PruneList(state.recent, now);
      state := state.(recent := keep);
      state := Decay(state, now);
      score := if Ready(state, now) then Some(Score(state, now)) else None;
      hide Score, Decay;
    }

    method ReserveAt(now: int)
      modifies this
      ensures state == Reserve(old(state), now)
    {
      var keep := PruneList(state.recent, now);
      state := state.(recent := keep + [Reservation(now, SEND_COST)], lastSelected := Some(now));
      var load := BurstLoad(state.recent, now);
      if load >= CAPACITY * 2 {
        state := state.(cooldown := Some(now + 900 * MILLISECOND));
      }
    }

    method RecordSuccess(now: int, latency: int)
      modifies this
      ensures state == Success(old(state), now, latency)
    {
      var keep := PruneList(state.recent, now);
      state := Decay(state.(recent := keep), now);
      if state.avgLatency > 0 {
        state := state.(avgLatency := Truncate(state.avgLatency as real * 0.72 + latency as real * 0.28));
      } else {
        state := state.(avgLatency := latency);
      }
      state := state.(failures := Decrement(state.failures));
      state := state.(timeouts := Decrement(state.timeouts));
      state := state.(rateLimits := Decrement(state.rateLimits));
      if state.cooldown.Some? && state.cooldown.value < now {
        state := state.(cooldown := None);
      }
      hide Truncate, Decay, Within;
    }

    method RecordFailure(now: int, kind: FailureKind)
      modifies this
      ensures state == Failure(old(state), now, kind)
    {
      hide Pause, Decay, Within;
      var keep := PruneList(state.recent, now);
      state := Decay(state.(recent := keep), now);
      state := state.(failures := (state.failures + 1) % UINT32);
      match kind {
        case RateLimited => state := state.(rateLimits := (state.rateLimits + 1) % UINT32);
        case CapacityExhausted =>
          state := state.(rateLimits := (state.rateLimits + 10) % UINT32, disabled := true);
        case Timeout => state := state.(timeouts := (state.timeouts + 1) % UINT32);
        case Remote =>
        case Transport =>
      }
      var pause := Min(Pause(kind, state.timeouts, state.rateLimits), COOLDOWN_CAP);
      if state.cooldown.None? || state.cooldown.value < now + pause {
        state := state.(cooldown := Some(now + pause));
      }
    }
  }

  class Fleet {
    const endpoints: seq<Endpoint>
    var rotation: nat

    ghost predicate Valid()
      reads this
    {
      && (forall i, j :: 0 <= i < j < |endpoints| ==> endpoints[i] != endpoints[j])
      && forall i :: 0 <= i < |endpoints| ==> endpoints[i].id == i
    }

    // Blank and repeated addresses are dropped; an empty list gives the default endpoint.
    constructor (urls: seq<string>, now: int)
      ensures Valid() && |endpoints| > 0 && rotation == 0
      ensures forall i :: 0 <= i < |endpoints| ==> fresh(endpoints[i]) && endpoints[i].state == Initial(now)
      ensures forall i, j :: 0 <= i < j < |endpoints| ==> endpoints[i].url != endpoints[j].url
      ensures forall u :: u in urls && Trim(u) != "" ==> exists i :: 0 <= i < |endpoints| && endpoints[i].url == Trim(u)
    {
      hide Trim;
      var list: seq<Endpoint> := [];
      for n := 0 to |urls|
        invariant forall i :: 0 <= i < |list| ==> fresh(list[i]) && list[i].id == i && list[i].state == Initial(now)
        invariant forall i, j :: 0 <= i < j < |list| ==> list[i] != list[j] && list[i].url != list[j].url
        invariant forall m :: 0 <= m < n && Trim(urls[m]) != "" ==> exists i :: 0 <= i < |list| && list[i].url == Trim(urls[m])
      {
        var url := Trim(urls[n]);
        if url != "" && forall i :: 0 <= i < |list| ==> list[i].url != url {
          var ep := new Endpoint(|list|, url, now);
          ghost var before := list;
          list := list + [ep];
          assert list[|before|].url == url;
          assert forall i :: 0 <= i < |before| ==> list[i] == before[i];
        }
      }
      if |list| == 0 {
        var ep := new Endpoint(0, "https://bsc-dataseed.binance.org/", now);
        list := [ep];
      }
      endpoints, rotation := list, 0;
    }

    ghost function States(): (r: seq<State>)
      reads this, endpoints
      ensures |r| == |endpoints| && forall i :: 0 <= i < |r| ==> r[i] == endpoints[i].state
    {
      seq(|endpoints|, i requires 0 <= i < |endpoints| reads this, endpoints => endpoints[i].state)
    }

    // One pass over the endpoints; the second pass of a call clears cooldowns first.
    method Collect(now: int, clear: bool) returns (found: seq<Candidate>)
      requires Valid()
      modifies endpoints
      ensures States() == VisitAll(old(States()), now, clear)
      ensures Collected(States(), now, found)
    {
      hide Ready, Score, Tidy, CollectedTo, Collected;
      found := [];
      CollectedNone(States(), now);
      for n := 0 to |endpoints|
        invariant forall i :: 0 <= i < n ==> endpoints[i].state == Visited(old(endpoints[i].state), now, clear)
        invariant forall i :: n <= i < |endpoints| ==> endpoints[i].state == old(endpoints[i].state)
        invariant CollectedTo(States(), now, found, n)
      {
        var ep := endpoints[n];
        ghost var before := States();
        if clear {
          ep.state := ep.state.(cooldown := None);
        }
        var score := ep.ScoreAt(now);
        CollectedNext(before, States(), now, n, found);
        if score.Some? {
          found := found + [Candidate(n, score.value)];
        }
      }
      assert States() == VisitAll(old(States()), now, clear);
      CollectedFully(States(), now, found);
    }

    // sendCandidates; the turn counter does not reach 2^63.
    method SendCandidates(limit: int, now: int) returns (picked: seq<nat>)
      requires Valid()
      modifies this`rotation, endpoints
      ensures Valid()
      ensures Picks(Base(old(States()), now), now, limit, picked)
      ensures Turns(Base(old(States()), now), now, old(rotation), picked)
      ensures rotation == old(rotation) + if |ReadySet(Base(old(States()), now), now)| > 1 then 1 else 0
      ensures States() == Charged(Base(old(States()), now), now, picked)
    {
      hide Visited, Score, Ready, ReadySet, Reserve, Picks, Turns, Collected, Permutes, SortedBy;
      ghost var start := States();
      var found := Collect(now, false);
      CollectedCount(States(), now, found);
      if |found| == 0 {
        found := Collect(now, true);
      }
      ghost var base := States();
      assert base == Base(start, now);
      var sorted := Rank(found);
      CollectedSorted(base, now, found, sorted);
      ChosenPicks(base, now, sorted, rotation, limit);
      ChosenTurns(base, now, sorted, rotation, limit);
      CollectedCount(base, now, sorted);
      picked := Ids(Chosen(sorted, rotation, limit));
      if |sorted| > 1 {
        rotation := rotation + 1;
      }
      assert States() == base;
      PicksDistinct(base, now, limit, picked);
      Charge(picked, now);
    }

    // The last loop of sendCandidates.
    method Charge(picked: seq<nat>, now: int)
      requires Valid()
      requires forall k :: 0 <= k < |picked| ==> picked[k] < |endpoints|
      requires forall i, j :: 0 <= i < j < |picked| ==> picked[i] != picked[j]
      modifies endpoints
      ensures States() == Charged(old(States()), now, picked)
    {
      hide Reserve;
      ghost var base := States();
      for k := 0 to |picked|
        invariant States() == Charged(base, now, picked[..k])
      {
        ghost var before := States();
        ChargeNext(base, now, picked, k);
        endpoints[picked[k]].ReserveAt(now);
        assert States() == before[picked[k] := Reserve(before[picked[k]], now)];
      }
      assert picked[..|picked|] == picked;
    }
  }

  lemma PicksDistinct(base: seq<State>, now: int, limit: int, picked: seq<nat>)
    requires Picks(base, now, limit, picked)
    ensures forall k :: 0 <= k < |picked| ==> picked[k] < |base|
    ensures forall i, j :: 0 <= i < j < |picked| ==> picked[i] != picked[j]
  {
    hide Beats;
  }

  // The list holds every ready endpoint below n once, with its score.
  ghost predicate CollectedTo(states: seq<State>, now: int, found: seq<Candidate>, n: nat) {
    && DistinctIds(found)
    && (forall k :: 0 <= k < |found| ==> found[k].id < n && Offers(states, now, found[k]))
    && forall i :: 0 <= i < n && i in ReadySet(states, now) ==> i in Ids(found)
  }

  lemma CollectedNone(states: seq<State>, now: int)
    ensures CollectedTo(states, now, [], 0)
  {
  }

  lemma CollectedFully(states: seq<State>, now: int, found: seq<Candidate>)
    requires CollectedTo(states, now, found, |states|)
    ensures Collected(states, now, found)
  {
    hide Offers, Ready;
  }

  lemma CollectedNext(before: seq<State>, after: seq<State>, now: int, n: nat, found: seq<Candidate>)
    requires CollectedTo(before, now, found, n) && n < |before| == |after|
    requires forall i :: 0 <= i < |before| && i != n ==> after[i] == before[i]
    ensures CollectedTo(after, now, if Ready(after[n], now) then found + [Candidate(n, Score(after[n], now))] else found, n + 1)
  {
    hide Ready, Score;
    var more := found + [Candidate(n, Score(after[n], now))];
    assert Ids(more) == Ids(found) + [n];
    assert forall k :: 0 <= k < |found| ==> Offers(after, now, found[k]);
    assert forall i :: 0 <= i < n ==> (i in ReadySet(after, now) <==> i in ReadySet(before, now));
  }

  // Charging one more distinct endpoint.
  lemma ChargeNext(base: seq<State>, now: int, ids: seq<nat>, k: nat)
    requires k < |ids| && ids[k] < |base|
    requires forall i, j :: 0 <= i < j < |ids| ==> ids[i] != ids[j]
    ensures var before := Charged(base, now, ids[..k]);
            && ids[..k + 1] == ids[..k] + [ids[k]]
            && Charged(base, now, ids[..k + 1]) == before[ids[k] := Reserve(before[ids[k]], now)]
  {
    hide Reserve;
    assert ids[k] !in ids[..k];
  }
}
