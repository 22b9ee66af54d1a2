/**
  One RPC endpoint of signer/rpc_fleet.go: sliding-window load, catch-up decay of failure counters,
  cooldowns. Times and durations are in nanoseconds; the zero time is None.
 */
module RpcEndpoint {
  import opened Common

  const MILLISECOND: int := 1_000_000
  const SECOND: int := 1_000_000_000
  const WINDOW: int := 1200 * MILLISECOND
  const DECAY: int := 20 * SECOND
  const CAPACITY: int := 18
  const SEND_COST: int := 7
  const COOLDOWN_CAP: int := 45 * SECOND
  const MAX_DURATION: int := 0x7fff_ffff_ffff_ffff
  const UINT32: int := 0x1_0000_0000

  type uint32 = x: int | 0 <= x < 0x1_0000_0000

  datatype Reservation = Reservation(at: int, units: uint32)

  datatype State = State(
    failures: uint32,
    timeouts: uint32,
    rateLimits: uint32,
    disabled: bool,
    cooldown: Option<int>,
    avgLatency: int,
    lastDecay: Option<int>,
    recent: seq<Reservation>,
    lastSelected: Option<int>)

  function Initial(now: int): State {
    State(0, 0, 0, false, None, 0, Some(now), [], None)
  }

  // time.Time.Sub saturates.
  function Elapsed(now: int, since: int): int {
    if now - since > MAX_DURATION then MAX_DURATION
    else if now - since < -MAX_DURATION - 1 then -MAX_DURATION - 1
    else now - since
  }

  // ---- load ----

  predicate Fresh(r: Reservation, now: int) {
    Elapsed(now, r.at) <= WINDOW
  }

  function Added(rows: seq<Reservation>, r: Reservation, add: bool): seq<Reservation> {
    if add then rows + [r] else rows
  }

  function Within(rows: seq<Reservation>, now: int): seq<Reservation> {
    if rows == [] then []
    else
      var n := |rows| - 1;
      Added(Within(rows[..n], now), rows[n], Fresh(rows[n], now))
  }

  // The total of a uint32 accumulator.
  function Units(rows: seq<Reservation>): uint32 {
    if rows == [] then 0 else (Units(rows[..|rows| - 1]) + rows[|rows| - 1].units) % UINT32
  }

  function Load(rows: seq<Reservation>, now: int): uint32 {
    Units(Within(rows, now))
  }

  lemma WithinAppend(rows: seq<Reservation>, r: Reservation, now: int)
    ensures Within(rows + [r], now) == Added(Within(rows, now), r, Fresh(r, now))
  {
    assert (rows + [r])[..|rows|] == rows;
  }

  // Pruning loses nothing that a later look at the window would see.
  lemma {:induction false} WithinTwice(rows: seq<Reservation>, t: int, now: int)
    requires t <= now
    ensures Within(Within(rows, t), now) == Within(rows, now)
    decreases rows
  {
    if rows != [] {
      var n := |rows| - 1;
      WithinTwice(rows[..n], t, now);
      if Fresh(rows[n], t) {
        WithinAppend(Within(rows[..n], t), rows[n], now);
      }
    }
  }

  method PruneList(rows: seq<Reservation>, now: int) returns (keep: seq<Reservation>)
    ensures keep == Within(rows, now)
  {
    keep := [];
    for i := 0 to |rows|
      invariant keep == Within(rows[..i], now)
    {
      assert rows[..i + 1] == rows[..i] + [rows[i]];
      WithinAppend(rows[..i], rows[i], now);
      if Elapsed(now, rows[i].at) <= WINDOW {
        keep := keep + [rows[i]];
      }
    }
    assert rows[..|rows|] == rows;
  }

  method BurstLoad(rows: seq<Reservation>, now: int) returns (total: uint32)
    ensures total == Load(rows, now)
  {
    total := 0;
    for i := 0 to |rows|
      invariant total == Load(rows[..i], now)
    {
      assert rows[..i + 1] == rows[..i] + [rows[i]];
      WithinAppend(rows[..i], rows[i], now);
      if Elapsed(now, rows[i].at) <= WINDOW {
        UnitsAppend(Within(rows[..i], now), rows[i]);
        total := (total + rows[i].units) % UINT32;
      }
    }
    assert rows[..|rows|] == rows;
  }

  lemma UnitsAppend(rows: seq<Reservation>, r: Reservation)
    ensures Units(rows + [r]) == (Units(rows) + r.units) % UINT32
  {
    assert (rows + [r])[..|rows|] == rows;
  }

  // ---- decay ----

  // Integer division of Go, converted to uint32.
  function DecaySteps(now: int, last: int): uint32 {
    var d := Elapsed(now, last);
    (if d >= 0 then d / DECAY else -(-d / DECAY)) % UINT32
  }

  function Subtract(value: uint32, amount: uint32): uint32 {
    if amount > value then 0 else value - amount
  }

  function Decay(s: State, now: int): State {
    if s.lastDecay.None? then s.(lastDecay := Some(now))
    else
      var steps := DecaySteps(now, s.lastDecay.value);
      if steps == 0 then s
      else
        s.(lastDecay := Some(s.lastDecay.value + steps * DECAY),
           failures := Subtract(s.failures, steps * 2 % UINT32),
           timeouts := Subtract(s.timeouts, steps * 2 % UINT32),
           rateLimits := Subtract(s.rateLimits, steps * 4 % UINT32))
  }

  // With the clock not behind the last decay, the uint32 arithmetic never wraps.
  lemma StepsExact(now: int, last: int)
    requires last <= now <= last + MAX_DURATION
    ensures DecaySteps(now, last) == (now - last) / DECAY && DecaySteps(now, last) * 4 < UINT32
  {
  }

  lemma SubtractTwice(value: uint32, a: uint32, b: uint32)
    requires a + b < UINT32
    ensures Subtract(Subtract(value, a), b) == Subtract(value, a + b)
  {
  }

  lemma SubtractNothing(value: uint32)
    ensures Subtract(value, 0) == value
  {
  }

  // What a decay at a given time leaves, in closed form.
  lemma DecayClosed(s: State, now: int)
    requires s.lastDecay.Some? && s.lastDecay.value <= now <= s.lastDecay.value + MAX_DURATION
    ensures var n := (now - s.lastDecay.value) / DECAY;
            && 0 <= n && n * 4 < UINT32
            && Decay(s, now) == s.(lastDecay := Some(s.lastDecay.value + n * DECAY), failures := Subtract(s.failures, n * 2),
                                   timeouts := Subtract(s.timeouts, n * 2), rateLimits := Subtract(s.rateLimits, n * 4))
  {
    hide DecaySteps, Subtract;
    StepsExact(now, s.lastDecay.value);
    var steps := DecaySteps(now, s.lastDecay.value);
    assert steps * 2 % UINT32 == steps * 2 && steps * 4 % UINT32 == steps * 4;
    SubtractNothing(s.failures);
    SubtractNothing(s.timeouts);
    SubtractNothing(s.rateLimits);
  }

  lemma PeriodsAdd(last: int, t: int, now: int)
    requires last <= t <= now
    ensures var a := (t - last) / DECAY;
            0 <= a && last + a * DECAY <= t && a + (now - (last + a * DECAY)) / DECAY == (now - last) / DECAY
  {
    var a := (t - last) / DECAY;
    QuotientRemainder(a + (now - (last + a * DECAY)) / DECAY, DECAY, (now - (last + a * DECAY)) % DECAY);
  }

  // Decaying on the way changes nothing: catching up at once gives the same counters and the same
  // reference time.
  lemma DecayComposes(s: State, t: int, now: int)
    requires s.lastDecay.Some? && s.lastDecay.value <= t <= now <= s.lastDecay.value + MAX_DURATION
    ensures Decay(Decay(s, t), now) == Decay(s, now)
  {
    hide Decay, Subtract;
    var last := s.lastDecay.value;
    var a := (t - last) / DECAY;
    PeriodsAdd(last, t, now);
    DecayClosed(s, t);
    DecayClosed(s, now);
    DecayClosed(Decay(s, t), now);
    var b := (now - (last + a * DECAY)) / DECAY;
    SubtractTwice(s.failures, a * 2, b * 2);
    SubtractTwice(s.timeouts, a * 2, b * 2);
    SubtractTwice(s.rateLimits, a * 4, b * 4);
  }

  function DecayAll(s: State, times: seq<int>): State {
    if times == [] then s else Decay(DecayAll(s, times[..|times| - 1]), times[|times| - 1])
  }

  lemma {:induction false} DecayOnce(s: State, times: seq<int>)
    requires s.lastDecay.Some? && times != []
    requires s.lastDecay.value <= times[0] && times[|times| - 1] <= s.lastDecay.value + MAX_DURATION
    requires forall i, j :: 0 <= i < j < |times| ==> times[i] <= times[j]
    ensures DecayAll(s, times) == Decay(s, times[|times| - 1])
    decreases times
  {
    var n := |times| - 1;
    hide Decay;
    if n > 0 {
      assert times[0] <= times[n - 1] <= times[n];
      DecayOnce(s, times[..n]);
      DecayComposes(s, times[n - 1], times[n]);
    } else {
      assert DecayAll(s, times[..0]) == s;
    }
  }

  // ---- the operations on one endpoint ----

  function Tidy(s: State, now: int): State {
    Decay(s.(recent := Within(s.recent, now)), now)
  }

  predicate Ready(s: State, now: int) {
    !s.disabled && !(s.cooldown.Some? && s.cooldown.value > now)
  }

  function LatencyTerm(s: State): real {
    if s.avgLatency > 0 then (s.avgLatency / MILLISECOND) as real else 120.0
  }

  function RecencyTerm(s: State, now: int): real {
    if s.lastSelected.Some? && Elapsed(now, s.lastSelected.value) < 180 * MILLISECOND
    then ((180 * MILLISECOND - Elapsed(now, s.lastSelected.value)) / MILLISECOND) as real * 2.4
    else 0.0
  }

  function BurstTerm(load: uint32): real {
    var ratio := load as real / CAPACITY as real;
    if ratio >= 1.0 then 25000.0 + (ratio - 1.0) * 8000.0 else ratio * ratio * 2200.0
  }

  function Score(s: State, now: int): real {
    LatencyTerm(s) + s.failures as real * 180.0 + s.rateLimits as real * 900.0 + BurstTerm(Load(s.recent, now)) + RecencyTerm(s, now)
  }

  // What each circumstance adds to the score.
  lemma ScoreSteps(s: State, now: int)
    ensures s.failures + 1 < UINT32 ==> Score(s.(failures := s.failures + 1), now) == Score(s, now) + 180.0
    ensures s.rateLimits + 1 < UINT32 ==> Score(s.(rateLimits := s.rateLimits + 1), now) == Score(s, now) + 900.0
    ensures RecencyTerm(s.(lastSelected := Some(now)), now) == 432.0
    ensures RecencyTerm(s.(lastSelected := Some(now - 180_000_000)), now) == 0.0
    ensures BurstTerm(0) == 0.0 && BurstTerm(9) == 550.0 && BurstTerm(18) == 25000.0 && BurstTerm(36) == 33000.0
  {
    hide Load, BurstTerm;
    BurstValues();
  }

  lemma BurstValues()
    ensures BurstTerm(0) == 0.0 && BurstTerm(9) == 550.0 && BurstTerm(18) == 25000.0 && BurstTerm(36) == 33000.0
  {
    assert 9 as real / CAPACITY as real == 0.5;
    assert 36 as real / CAPACITY as real == 2.0;
  }

  // A reservation counts for exactly 1.2 seconds.
  lemma WindowEdge(at: int, now: int)
    requires at <= now
    ensures Fresh(Reservation(at, SEND_COST), now) <==> now - at <= 1_200_000_000
  {
  }

  // Every full 20 seconds take two off the failures and the timeouts and four off the rate limits.
  lemma DecayRate(s: State, n: nat)
    requires s.lastDecay.Some? && n * 20_000_000_000 <= MAX_DURATION
    ensures n * 4 < UINT32
    ensures var t := Decay(s, s.lastDecay.value + n * 20_000_000_000);
            && t.failures == Subtract(s.failures, n * 2) && t.timeouts == Subtract(s.timeouts, n * 2)
            && t.rateLimits == Subtract(s.rateLimits, n * 4)
    ensures Decay(s, s.lastDecay.value + 19_999_999_999) == s
  {
    QuotientRemainder(n, DECAY, 0);
    DecayClosed(s, s.lastDecay.value + n * DECAY);
    DecayStill(s, s.lastDecay.value + 19_999_999_999);
    hide Decay, Subtract;
  }

  // n selections at one moment.
  function Burst(n: nat, now: int): State {
    if n == 0 then Initial(now) else Reserve(Burst(n - 1, now), now)
  }

  // One more selection at the same moment.
  lemma SelectionAdds(s: State, now: int)
    requires Within(s.recent, now) == s.recent && Load(s.recent, now) + 7 < UINT32
    ensures var t := Reserve(s, now);
            && Within(t.recent, now) == t.recent && Load(t.recent, now) == Load(s.recent, now) + 7
            && t.cooldown == if Load(t.recent, now) >= 36 then Some(now + 900_000_000) else s.cooldown
  {
    var r := Reservation(now, SEND_COST);
    assert Reserve(s, now).recent == s.recent + [r];
    WithinAppend(s.recent, r, now);
    UnitsAppend(s.recent, r);
    hide Within, Units;
  }

  lemma NoLoad(now: int)
    ensures Within([], now) == [] && Load([], now) == 0
  {
  }

  // Each selection weighs seven units, and the sixth in a burst makes the endpoint pause.
  lemma {:induction false} SixthPauses(n: nat, now: int)
    requires n <= 6
    ensures var s := Burst(n, now);
            && Within(s.recent, now) == s.recent && Load(s.recent, now) == 7 * n
            && s.cooldown == if n == 6 then Some(now + 900_000_000) else None
  {
    hide Within, Load, Reserve;
    if n == 0 {
      NoLoad(now);
    } else {
      SixthPauses(n - 1, now);
      SelectionAdds(Burst(n - 1, now), now);
    }
  }

  // A saturated endpoint never scores better than an unsaturated one without failures whose average
  // latency is at most 22 seconds.
  lemma SaturatedLoses(s: State, t: State, now: int)
    requires Load(s.recent, now) < CAPACITY <= Load(t.recent, now)
    requires s.failures == 0 && s.rateLimits == 0 && s.avgLatency <= 22 * SECOND
    requires s.lastSelected.Some? ==> s.lastSelected.value <= now
    ensures Score(s, now) < Score(t, now)
  {
    hide Load, LatencyTerm, RecencyTerm, BurstTerm;
    LatencyRange(s);
    LatencyRange(t);
    RecencyRange(s, now);
    RecencyRange(t, now);
    BurstRange(Load(s.recent, now));
    BurstRange(Load(t.recent, now));
  }

  lemma LatencyRange(s: State)
    ensures LatencyTerm(s) >= 0.0
    ensures s.avgLatency <= 22 * SECOND ==> LatencyTerm(s) <= 22000.0
  {
    assert s.avgLatency <= 22 * SECOND ==> s.avgLatency / MILLISECOND <= 22000;
  }

  lemma RecencyRange(s: State, now: int)
    ensures RecencyTerm(s, now) >= 0.0
    ensures (s.lastSelected.Some? ==> s.lastSelected.value <= now) ==> RecencyTerm(s, now) <= 432.0
  {
    if s.lastSelected.Some? {
      var e := Elapsed(now, s.lastSelected.value);
      assert e >= 0 ==> (180 * MILLISECOND - e) / MILLISECOND <= 180;
    }
  }

  lemma SquareSmall(x: real)
    requires 0.0 <= x < 1.0
    ensures 0.0 <= x * x <= 1.0
  {
    assert x * x <= x * 1.0;
  }

  lemma BurstRange(load: uint32)
    ensures load < CAPACITY ==> 0.0 <= BurstTerm(load) <= 2200.0
    ensures load >= CAPACITY ==> BurstTerm(load) >= 25000.0
  {
    var ratio := load as real / CAPACITY as real;
    if load < CAPACITY {
      assert 0.0 <= ratio < 1.0;
      SquareSmall(ratio);
    } else {
      assert ratio >= 1.0;
    }
  }

  function Reserve(s: State, now: int): State {
    var rows := Within(s.recent, now) + [Reservation(now, SEND_COST)];
    s.(recent := rows, lastSelected := Some(now),
       cooldown := if Load(rows, now) >= CAPACITY * 2 then Some(now + 900 * MILLISECOND) else s.cooldown)
  }

  function Decrement(n: uint32): uint32 {
    if n > 0 then n - 1 else 0
  }

  // Truncation toward zero.
  function Truncate(x: real): int {
    if x >= 0.0 then x.Floor else -(-x).Floor
  }

  function Success(s: State, now: int, latency: int): State {
    var t := Tidy(s, now);
    t.(avgLatency := if t.avgLatency > 0 then Truncate(t.avgLatency as real * 0.72 + latency as real * 0.28) else latency,
       failures := Decrement(t.failures), timeouts := Decrement(t.timeouts), rateLimits := Decrement(t.rateLimits),
       cooldown := if t.cooldown.Some? && t.cooldown.value < now then None else t.cooldown)
  }

  datatype FailureKind = Remote | Timeout | RateLimited | CapacityExhausted | Transport

  function Min(a: int, b: int): int {
    if a > b then b else a
  }

  // The pause a failure asks for, from the counters after it was counted.
  function Pause(kind: FailureKind, timeouts: uint32, rateLimits: uint32): int {
    match kind
    case Remote => 500 * MILLISECOND
    case Transport => 700 * MILLISECOND
    case RateLimited => 2 * Pow(2, Min(rateLimits, 4)) * SECOND
    case CapacityExhausted => 86400 * SECOND
    case Timeout => 400 * Pow(2, Min(timeouts, 5)) * MILLISECOND
  }

  function Failure(s: State, now: int, kind: FailureKind): State {
    var t := Tidy(s, now);
    var timeouts := if kind.Timeout? then (t.timeouts + 1) % UINT32 else t.timeouts;
    var rateLimits :=
      if kind.RateLimited? then (t.rateLimits + 1) % UINT32
      else if kind.CapacityExhausted? then (t.rateLimits + 10) % UINT32
      else t.rateLimits;
    var until := now + Min(Pause(kind, timeouts, rateLimits), COOLDOWN_CAP);
    t.(failures := (t.failures + 1) % UINT32, timeouts := timeouts, rateLimits := rateLimits,
       disabled := t.disabled || kind.CapacityExhausted?,
       cooldown := if t.cooldown.None? || t.cooldown.value < until then Some(until) else t.cooldown)
  }

  // A new endpoint may be used at once, and scores as one with 120 milliseconds of latency.
  lemma FreshEndpoint(now: int)
    ensures Ready(Initial(now), now) && Score(Initial(now), now) == 120.0
    ensures Tidy(Initial(now), now) == Initial(now)
    ensures var s := Initial(now); s.failures == s.timeouts == s.rateLimits == 0 && s.recent == [] && !s.disabled
  {
    assert Within([], now) == [];
    assert Units([]) == 0;
  }

  // An endpoint that is idle and has no failures scores its average latency in whole milliseconds.
  lemma IdleScore(s: State, now: int)
    requires s.recent == [] && s.lastSelected.None? && s.failures == 0 && s.rateLimits == 0 && s.avgLatency > 0
    ensures Score(s, now) == (s.avgLatency / 1_000_000) as real
  {
    assert Within([], now) == [];
    assert Units([]) == 0;
  }

  // The pauses, in nanoseconds: half a second after a remote failure, 0.7 seconds after a transport
  // failure, 4 to 32 seconds after the first four rate limits, 0.8 to 12.8 seconds after the first five
  // timeouts, and the cap of 45 seconds when the capacity is exhausted.
  function PauseTable(kind: FailureKind, timeouts: uint32, rateLimits: uint32): int {
    match kind
    case Remote => 500_000_000
    case Transport => 700_000_000
    case RateLimited =>
      if rateLimits == 0 then 2_000_000_000 else if rateLimits == 1 then 4_000_000_000
      else if rateLimits == 2 then 8_000_000_000 else if rateLimits == 3 then 16_000_000_000 else 32_000_000_000
    case CapacityExhausted => 45_000_000_000
    case Timeout =>
      if timeouts == 0 then 400_000_000 else if timeouts == 1 then 800_000_000
      else if timeouts == 2 then 1_600_000_000 else if timeouts == 3 then 3_200_000_000
      else if timeouts == 4 then 6_400_000_000 else 12_800_000_000
  }

  lemma PauseIs(kind: FailureKind, timeouts: uint32, rateLimits: uint32)
    ensures Min(Pause(kind, timeouts, rateLimits), COOLDOWN_CAP) == PauseTable(kind, timeouts, rateLimits)
  {
    SmallPowers();
    hide Pow;
  }

  lemma SmallPowers()
    ensures Pow(2, 0) == 1 && Pow(2, 1) == 2 && Pow(2, 2) == 4 && Pow(2, 3) == 8 && Pow(2, 4) == 16 && Pow(2, 5) == 32
  {
  }

  // After a failure the endpoint may not be used until its pause is over, and then it may, unless it
  // is disabled or was already pausing for longer.
  lemma FailurePauses(s: State, now: int, kind: FailureKind, later: int)
    requires now <= later
    ensures var t := Failure(s, now, kind);
            var until := now + PauseTable(kind, t.timeouts, t.rateLimits);
            && (later < until ==> !Ready(t, later))
            && (Ready(t, later) <==>
                  until <= later && !s.disabled && kind != CapacityExhausted && (s.cooldown.Some? ==> s.cooldown.value <= later))
  {
    hide Within, DecaySteps, Load, Pause, PauseTable, Subtract;
    var t := Failure(s, now, kind);
    PauseIs(kind, t.timeouts, t.rateLimits);
  }

  // A success takes back one failure of each kind: right after a failure it restores the counters,
  // as long as they do not overflow.
  lemma SuccessTakesBack(s: State, now: int, kind: FailureKind, latency: int)
    requires var t := Tidy(s, now); t.failures < UINT32 - 1 && t.timeouts < UINT32 - 1 && t.rateLimits < UINT32 - 1
    requires s.lastDecay.Some? && s.lastDecay.value <= now <= s.lastDecay.value + MAX_DURATION
    ensures var before, after := Tidy(s, now), Success(Failure(s, now, kind), now, latency);
            && after.failures == before.failures
            && (kind == Timeout ==> after.timeouts == before.timeouts)
            && (kind == RateLimited ==> after.rateLimits == before.rateLimits)
            && (kind != Timeout ==> after.timeouts == if before.timeouts > 0 then before.timeouts - 1 else 0)
  {
    hide Within, Load, Pause, Truncate, DecaySteps, Subtract;
    var t := s.(recent := Within(s.recent, now));
    DecayClosed(t, now);
    var n := (now - s.lastDecay.value) / DECAY;
    DecayedNow(s.lastDecay.value, now);
    DecayStill(Failure(s, now, kind).(recent := Within(Failure(s, now, kind).recent, now)), now);
  }

  lemma DecayedNow(last: int, now: int)
    requires last <= now <= last + MAX_DURATION
    ensures var n := (now - last) / DECAY; 0 <= now - (last + n * DECAY) < DECAY
  {
  }

  lemma DecayStill(s: State, now: int)
    requires s.lastDecay.Some? && 0 <= now - s.lastDecay.value < DECAY
    ensures Decay(s, now) == s
  {
  }

  // ---- runs of one endpoint ----

  datatype Event =
    | Scored(at: int)
    | Cleared(at: int)
    | Selected(at: int)
    | Succeeded(at: int, latency: int)
    | FailedWith(at: int, kind: FailureKind)

  function Next(s: State, e: Event): State {
    match e
    case Scored(at) => Tidy(s, at)
    case Cleared(_) => s.(cooldown := None)
    case Selected(at) => Reserve(s, at)
    case Succeeded(at, latency) => Success(s, at, latency)
    case FailedWith(at, kind) => Failure(s, at, kind)
  }

  function Run(s: State, events: seq<Event>): State {
    if events == [] then s else Next(Run(s, events[..|events| - 1]), events[|events| - 1])
  }

  // Every reservation the run ever made.
  function Made(events: seq<Event>): seq<Reservation> {
    if events == [] then []
    else
      var last := events[|events| - 1];
      Added(Made(events[..|events| - 1]), Reservation(last.at, SEND_COST), last.Selected?)
  }

  ghost predicate ClockForward(start: int, events: seq<Event>) {
    && (forall i :: 0 <= i < |events| ==> start <= events[i].at)
    && forall i, j :: 0 <= i < j < |events| ==> events[i].at <= events[j].at
  }

  function Clock(start: int, events: seq<Event>): int {
    if events == [] then start else events[|events| - 1].at
  }

  lemma NextRecent(s: State, e: Event, now: int)
    requires e.at <= now
    ensures var r := Reservation(e.at, SEND_COST);
            Within(Next(s, e).recent, now) == Added(Within(s.recent, now), r, e.Selected? && Fresh(r, now))
  {
    hide Within, Fresh, DecaySteps, Load, Pause, Truncate, Subtract;
    WithinTwice(s.recent, e.at, now);
    WithinAppend(Within(s.recent, e.at), Reservation(e.at, SEND_COST), now);
  }

  lemma NothingWithin(now: int)
    ensures Within([], now) == []
  {
  }

  // The pruned list and the full history show the same window at every later time.
  lemma {:induction false} WindowAgrees(start: int, events: seq<Event>, now: int)
    requires ClockForward(start, events) && Clock(start, events) <= now
    ensures Within(Run(Initial(start), events).recent, now) == Within(Made(events), now)
    decreases events
  {
    hide Next, Within, Fresh;
    if events != [] {
      var n := |events| - 1;
      var e := events[n];
      WindowAgrees(start, events[..n], now);
      NextRecent(Run(Initial(start), events[..n]), e, now);
      WithinAppend(Made(events[..n]), Reservation(e.at, SEND_COST), now);
    } else {
      NothingWithin(now);
    }
  }

  lemma LoadAgrees(start: int, events: seq<Event>, now: int)
    requires ClockForward(start, events) && Clock(start, events) <= now
    ensures Load(Run(Initial(start), events).recent, now) == Load(Made(events), now)
  {
    WindowAgrees(start, events, now);
    hide Run, Within, Units, Made;
  }

  lemma PauseCapped(kind: FailureKind, timeouts: uint32, rateLimits: uint32)
    ensures 0 < Min(Pause(kind, timeouts, rateLimits), COOLDOWN_CAP) <= COOLDOWN_CAP
  {
    PowPositive(2, Min(rateLimits, 4));
    PowPositive(2, Min(timeouts, 5));
    hide Pow;
  }

  lemma NextCooldown(s: State, e: Event)
    ensures var t := Next(s, e).cooldown; t.Some? ==> t == s.cooldown || t.value <= e.at + COOLDOWN_CAP
    ensures e.FailedWith? ==> Next(s, e).cooldown.Some? && Next(s, e).cooldown.value > e.at
    ensures Next(s, e).disabled == (s.disabled || (e.FailedWith? && e.kind.CapacityExhausted?))
  {
    if e.FailedWith? {
      var t := Tidy(s, e.at);
      PauseCapped(e.kind, Next(s, e).timeouts, Next(s, e).rateLimits);
    }
    hide Within, DecaySteps, Load, Pause, Truncate;
  }

  // An endpoint is disabled exactly from its first exhausted-capacity failure on, for good, and no
  // cooldown reaches more than 45 seconds past the last event.
  lemma {:induction false} DisabledExactly(start: int, events: seq<Event>)
    requires ClockForward(start, events)
    ensures var s := Run(Initial(start), events);
            && (s.disabled <==> exists i :: 0 <= i < |events| && Exhausted(events[i]))
            && (s.cooldown.Some? ==> s.cooldown.value <= Clock(start, events) + COOLDOWN_CAP)
    decreases events
  {
    if events != [] {
      var n := |events| - 1;
      DisabledExactly(start, events[..n]);
      NextCooldown(Run(Initial(start), events[..n]), events[n]);
      hide Next;
      var before := events[..n];
      if i :| 0 <= i < |before| && Exhausted(before[i]) {
        assert Exhausted(events[i]);
      }
      if i :| 0 <= i < |events| && Exhausted(events[i]) {
        assert i == n || Exhausted(before[i]);
      }
    }
  }

  predicate Exhausted(e: Event) {
    e.FailedWith? && e.kind.CapacityExhausted?
  }
}
