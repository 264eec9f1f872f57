/**
 The circuit breaker: a map from service names to states shared by all requests.
 A request holds the state's reference from its first critical section to its
 second, while the downstream call runs unlocked.
 */
module CircuitBreaker {

  const THRESHOLD: nat := 5
  const OPEN_FOR: nat := 10_000
  /** Before every real time; a new state starts with it. */
  const ZERO_TIME: nat := 0

  /** How a request ended, and the time inside the second critical section. */
  datatype Outcome = Outcome(failed: bool, at: nat)

  // ---------- what the counters mean ----------

  /** The length of the run of failures at the end of a history. */
  function TrailingFailures(h: seq<Outcome>): nat {
    if h == [] || !h[|h| - 1].failed then 0 else 1 + TrailingFailures(h[..|h| - 1])
  }

  /** The last completion of `h` opened the breaker: it ended a run of 5, 10, 15, ... failures. */
  predicate Opens(h: seq<Outcome>) {
    TrailingFailures(h) > 0 && TrailingFailures(h) % THRESHOLD == 0
  }

  function Openings(h: seq<Outcome>): nat {
    if h == [] then 0 else Openings(h[..|h| - 1]) + (if Opens(h) then 1 else 0)
  }

  function Failures(h: seq<Outcome>): nat {
    if h == [] then 0 else Failures(h[..|h| - 1]) + (if h[|h| - 1].failed then 1 else 0)
  }

  /** The end of the latest open period, ten seconds after the latest opening. */
  function OpenedUntil(h: seq<Outcome>): nat {
    if h == [] then ZERO_TIME
    else if Opens(h) then h[|h| - 1].at + OPEN_FOR
    else OpenedUntil(h[..|h| - 1])
  }

  predicate TimesGrow(h: seq<Outcome>) {
    forall i, j :: 0 <= i <= j < |h| ==> h[i].at <= h[j].at
  }

  /** Each opening consumes five consecutive failures of its own. */
  lemma {:induction false} FiveFailuresPerOpening(h: seq<Outcome>)
    ensures 5 * Openings(h) + TrailingFailures(h) % 5 <= Failures(h)
  {
    if h != [] {
      FiveFailuresPerOpening(h[..|h| - 1]);
    }
  }

  /** Five failures in a row open the breaker: one of them did, and the open period
      lasts at least ten seconds from the first of them on. */
  lemma FiveInARowOpen(h: seq<Outcome>, run: seq<Outcome>)
    requires |run| == 5 && (forall i :: 0 <= i < 5 ==> run[i].failed) && TimesGrow(h + run)
    ensures exists i :: 1 <= i <= 5 && Opens(h + run[..i])
    ensures OpenedUntil(h + run) >= run[0].at + 10_000
  {
    var n := TrailingFailures(h);
    TrailingGrows(h, run, 5);
    var i := 5 - n % 5;
    assert (n + i) % 5 == 0;
    TrailingGrows(h, run, i);
    var whole := h + run[..i];
    assert whole + run[i..] == h + run && Opens(whole);
    OpenLastsTenSeconds(whole, run[i..]);
    assert whole[|whole| - 1] == run[i - 1] == (h + run)[|h| + i - 1] && (h + run)[|h|] == run[0];
  }

  lemma {:induction false} TrailingGrows(h: seq<Outcome>, run: seq<Outcome>, i: nat)
    requires i <= |run| && forall j :: 0 <= j < |run| ==> run[j].failed
    ensures TrailingFailures(h + run[..i]) == TrailingFailures(h) + i
  {
    if i == 0 {
      assert h + run[..0] == h;
    } else {
      TrailingGrows(h, run, i - 1);
      assert (h + run[..i])[..|h| + i - 1] == h + run[..i - 1];
    }
  }

  /** A success starts the count anew. */
  lemma SuccessResets(h: seq<Outcome>, at: nat)
    ensures TrailingFailures(h + [Outcome(false, at)]) == 0 && OpenedUntil(h + [Outcome(false, at)]) == OpenedUntil(h)
  {
    assert (h + [Outcome(false, at)])[..|h|] == h;
  }

  /** The last TrailingFailures(h) completions failed, and the one before did not. */
  lemma {:induction false} TrailingFailuresIsARun(h: seq<Outcome>)
    ensures var n := TrailingFailures(h);
      && n <= |h| && (forall i :: |h| - n <= i < |h| ==> h[i].failed)
      && (n < |h| ==> !h[|h| - n - 1].failed)
  {
    if h != [] && h[|h| - 1].failed {
      TrailingFailuresIsARun(h[..|h| - 1]);
    }
  }

  /** The open period ends at most ten seconds after the last completion. */
  lemma {:induction false} OpenAtMostTenSeconds(h: seq<Outcome>)
    requires TimesGrow(h) && h != []
    ensures OpenedUntil(h) <= h[|h| - 1].at + 10_000
  {
    var before := h[..|h| - 1];
    if before != [] && !Opens(h) {
      assert h[|before| - 1].at <= h[|h| - 1].at;
      OpenAtMostTenSeconds(before);
    }
  }

  /** OpenUntil never decreases, whatever else completes. */
  lemma {:induction false} OpenedUntilGrows(h: seq<Outcome>, more: seq<Outcome>)
    requires TimesGrow(h + more)
    ensures OpenedUntil(h) <= OpenedUntil(h + more)
  {
    if more == [] {
      assert h + more == h;
    } else {
      var all, last := h + more, |h + more| - 1;
      var before := all[..last];
      assert before == h + more[..|more| - 1];
      OpenedUntilGrows(h, more[..|more| - 1]);
      if before != [] {
        OpenAtMostTenSeconds(before);
        assert all[last - 1].at <= all[last].at;
      }
    }
  }

  /** Once opened, the breaker stays open for ten seconds: nothing that completes
      later, success or failure, brings the end forward. */
  lemma OpenLastsTenSeconds(h: seq<Outcome>, more: seq<Outcome>)
    requires Opens(h) && TimesGrow(h + more)
    ensures OpenedUntil(h + more) >= h[|h| - 1].at + 10_000
  {
    OpenedUntilGrows(h, more);
  }

  /** The counters that a history calls for. */
  predicate Shows(h: seq<Outcome>, failCount: int, openUntil: nat) {
    failCount == TrailingFailures(h) % THRESHOLD && openUntil == OpenedUntil(h)
  }

  /** One more completion: the fifth failure in a row opens, a success resets. */
  lemma OneMoreOutcome(h: seq<Outcome>, failCount: int, openUntil: nat, o: Outcome)
    requires Shows(h, failCount, openUntil) && TimesGrow(h)
    requires h != [] ==> h[|h| - 1].at <= o.at
    ensures TimesGrow(h + [o])
    ensures !o.failed ==> Shows(h + [o], 0, openUntil)
    ensures o.failed && failCount + 1 >= 5 ==> Shows(h + [o], 0, o.at + OPEN_FOR)
    ensures o.failed && failCount + 1 < 5 ==> Shows(h + [o], failCount + 1, openUntil)
    ensures openUntil <= o.at + OPEN_FOR
  {
    assert (h + [o])[..|h|] == h;
    if h != [] { OpenAtMostTenSeconds(h); }
  }

  // ---------- all requests together ----------

  /** One turn of the scheduler: a request enters (having read the clock `lag`
      before it gets the lock), a request leaves, or time passes. */
  datatype Turn = Enter(id: nat, service: string, lag: nat) | Leave(id: nat, failed: bool) | Wait(ms: nat)

  /** The completions of every known service, and the service that each request
      in flight was admitted to. */
  datatype Machine = Machine(clock: nat, history: map<string, seq<Outcome>>, held: map<nat, string>)
  {
    function Of(service: string): seq<Outcome> {
      if service in history then history[service] else []
    }
  }

  const START: Machine := Machine(0, map[], map[])

  /** A request enters unless the breaker was open when it read the clock. A turn
      that does not apply changes nothing. */
  function Next(m: Machine, turn: Turn): Machine {
    match turn
    case Enter(id, service, lag) =>
      if id in m.held || lag > m.clock then m
      else
        var known := if service in m.history then m else m.(history := m.history[service := []]);
        if m.clock - lag < OpenedUntil(m.Of(service)) then known else known.(held := m.held[id := service])
    case Leave(id, failed) =>
      if id !in m.held then m
      else
        var service := m.held[id];
        m.(history := m.history[service := m.Of(service) + [Outcome(failed, m.clock)]], held := m.held - {id})
    case Wait(ms) => m.(clock := m.clock + ms)
  }

  function Run(m: Machine, turns: seq<Turn>): Machine {
    if turns == [] then m else Next(Run(m, turns[..|turns| - 1]), turns[|turns| - 1])
  }

  predicate InTime(h: seq<Outcome>, clock: nat) {
    TimesGrow(h) && (h != [] ==> h[|h| - 1].at <= clock)
  }

  /** A state's fields account for the history of its service at this time. */
  predicate Accounts(h: seq<Outcome>, clock: nat, failCount: int, openUntil: nat) {
    InTime(h, clock) && Shows(h, failCount, openUntil)
  }

  predicate Timed(m: Machine) {
    forall service :: service in m.history ==> InTime(m.history[service], m.clock)
  }

  lemma {:induction false} RunKeepsTimed(m: Machine, turns: seq<Turn>)
    requires Timed(m)
    ensures Timed(Run(m, turns))
  {
    if turns != [] {
      RunKeepsTimed(m, turns[..|turns| - 1]);
    }
  }

  /** Histories only grow at their end, and time does not go back. */
  lemma {:induction false} RunExtends(m: Machine, turns: seq<Turn>, service: string)
    ensures m.Of(service) <= Run(m, turns).Of(service)
    ensures m.clock <= Run(m, turns).clock
  {
    if turns != [] {
      RunExtends(m, turns[..|turns| - 1], service);
    }
  }

  /** The turn admits the request. */
  predicate Admits(m: Machine, turn: Turn) {
    turn.Enter? && turn.id !in m.held && turn.id in Next(m, turn).held
  }

  /** Main result: in every run of any number of requests, from the completion
      that opens a breaker on, nobody is admitted who read the clock less than
      ten seconds after it, before or after taking the lock. */
  lemma NobodyEntersWhileOpen(before: seq<Turn>, after: seq<Turn>, service: string, turn: Turn)
    requires var h := Run(START, before).Of(service); h != [] && Opens(h)
    requires turn.Enter? && turn.service == service
    ensures var h, m := Run(START, before).Of(service), Run(Run(START, before), after);
      Admits(m, turn) ==> m.clock - turn.lag >= h[|h| - 1].at + 10_000
  {
    var m := Run(START, before);
    var m' := Run(m, after);
    var h, h' := m.Of(service), m'.Of(service);
    RunKeepsTimed(START, before);
    RunKeepsTimed(m, after);
    RunExtends(m, after, service);
    assert h + h'[|h|..] == h';
    OpenLastsTenSeconds(h, h'[|h|..]);
  }

  // ---------- the shared map ----------

  class BreakerState {
    var failCount: int
    var openUntil: nat
    /** Auxiliary: the service whose entry this state is. */
    ghost const owner: string

    constructor (ghost service: string)
      ensures failCount == 0 && openUntil == ZERO_TIME && owner == service
    {
      failCount, openUntil, owner := 0, ZERO_TIME, service;
    }

    /** The body of the second critical section. */
    method Complete(failed: bool, now: nat, ghost h: seq<Outcome>)
      requires Shows(h, failCount, openUntil) && TimesGrow(h)
      requires h != [] ==> h[|h| - 1].at <= now
      modifies this
      ensures Shows(h + [Outcome(failed, now)], failCount, openUntil) && TimesGrow(h + [Outcome(failed, now)])
      ensures old(openUntil) <= openUntil
      ensures openUntil != old(openUntil) ==> failed && openUntil == now + OPEN_FOR
    {
      OneMoreOutcome(h, failCount, openUntil, Outcome(failed, now));
      if failed {
        failCount := failCount + 1;
        if failCount >= 5 {
          openUntil := now + OPEN_FOR;
          failCount := 0;
        }
      } else {
        failCount := 0;
      }
    }
  }

  class Breakers {
    var breakerMap: map<string, BreakerState>
    /** The clock; it never goes back. */
    var clock: nat
    /** Auxiliary: the completions of each service in lock order, and the service
        and the state reference of every request in flight. */
    ghost var history: map<string, seq<Outcome>>
    ghost var services: map<nat, string>
    ghost var captured: map<nat, BreakerState>

    constructor ()
      ensures Valid() && breakerMap == map[] && Snapshot() == START
    {
      breakerMap, history, services, captured, clock := map[], map[], map[], map[], 0;
    }

    /** A service's counters say exactly what its history says; its state belongs to
        no other service. */
    ghost predicate Agrees(service: string)
      requires service in breakerMap
      reads this`breakerMap, this`history, this`clock, breakerMap[service]
    {
      && service in history && breakerMap[service].owner == service
      && Accounts(history[service], clock, breakerMap[service].failCount, breakerMap[service].openUntil)
    }

    /** A service whose entry and history are as they were still agrees. */
    twostate lemma StillAgrees(service: string)
      requires old(service in breakerMap && Agrees(service))
      requires service in breakerMap && breakerMap[service] == old(breakerMap[service])
      requires service in history && history[service] == old(history[service])
      requires unchanged(breakerMap[service]) && old(clock) <= clock
      ensures Agrees(service)
    {}

    ghost predicate AllAgree()
      reads this`breakerMap, this`history, this`clock, breakerMap.Values
    {
      && (forall service :: service in history ==> service in breakerMap)
      && (forall service :: service in breakerMap ==> Agrees(service))
    }

    /** A captured reference is the map's entry for its service. */
    ghost predicate CapturesEntries()
      reads this`breakerMap, this`services, this`captured
    {
      && (forall id :: id in captured <==> id in services)
      && (forall id :: id in captured ==> Entry(services[id], captured[id]))
    }

    ghost predicate Valid()
      reads this, breakerMap.Values
    {
      CapturesEntries() && AllAgree()
    }

    /** The shared state as the machine sees it. */
    ghost function Snapshot(): Machine
      reads this
    {
      Machine(clock, history, services)
    }

    predicate Entry(service: string, state: BreakerState)
      reads this`breakerMap
    {
      service in breakerMap && breakerMap[service] == state
    }

    predicate Open(service: string)
      reads this, breakerMap.Values
    {
      service in breakerMap && clock < breakerMap[service].openUntil
    }

    method Tick(ms: nat)
      requires Valid()
      modifies this`clock
      ensures Valid() && clock == old(clock) + ms
    {
      clock := clock + ms;
      forall service | service in breakerMap ensures Agrees(service) {
        StillAgrees(service);
      }
    }

    method GetOrCreate(service: string) returns (state: BreakerState)
      requires Valid()
      modifies this`breakerMap, this`history
      ensures Valid() && Entry(service, state)
      ensures if service in old(breakerMap) then breakerMap == old(breakerMap) && history == old(history)
              else fresh(state) && state.failCount == 0 && state.openUntil == ZERO_TIME
                   && breakerMap == old(breakerMap)[service := state] && history == old(history)[service := []]
    {
      if service !in breakerMap {
        state := Create(service);
      } else {
        state := breakerMap[service];
      }
    }

    method Create(service: string) returns (state: BreakerState)
      requires Valid() && service !in breakerMap
      modifies this`breakerMap, this`history
      ensures Valid() && fresh(state) && state.failCount == 0 && state.openUntil == ZERO_TIME
      ensures breakerMap == old(breakerMap)[service := state] && history == old(history)[service := []]
    {
      state := new BreakerState(service);
      breakerMap := breakerMap[service := state];
      history := history[service := []];
      assert Agrees(service);
      forall other | other in breakerMap && other != service ensures Agrees(other) {
        StillAgrees(other);
      }
    }

    /** The first critical section. `sampled` is the time read before the lock was
        taken; the clock shows the time inside the lock. An admitted request
        captures the map's entry; nobody is admitted while the breaker is open. */
    method Begin(ghost id: nat, service: string, sampled: nat) returns (admitted: bool, state: BreakerState)
      requires Valid() && id !in captured && sampled <= clock
      modifies this`breakerMap, this`history, this`services, this`captured
      ensures Valid() && Entry(service, state)
      ensures admitted <==> !(service in old(breakerMap) && sampled < old(breakerMap)[service].openUntil)
      ensures admitted ==> !old(Open(service)) && !Open(service)
      ensures captured == if admitted then old(captured)[id := state] else old(captured)
      ensures services == if admitted then old(services)[id := service] else old(services)
      ensures if service in old(breakerMap) then breakerMap == old(breakerMap) && history == old(history)
              else fresh(state) && breakerMap == old(breakerMap)[service := state] && history == old(history)[service := []]
    {
      state := GetOrCreate(service);
      admitted := !(sampled < state.openUntil);
      if admitted {
        Capture(id, service, state);
      }
    }

    ghost method Capture(id: nat, service: string, state: BreakerState)
      requires Valid() && Entry(service, state)
      modifies this`services, this`captured
      ensures Valid()
      ensures captured == old(captured)[id := state] && services == old(services)[id := service]
    {
      captured, services := captured[id := state], services[id := service];
    }

    /** The second critical section, on the captured reference: it lands in the
        history of the captured service and touches no other service. */
    method End(ghost id: nat, state: BreakerState, failed: bool)
      requires Valid() && id in captured && captured[id] == state
      modifies this`history, this`services, this`captured, state
      ensures Valid()
      ensures captured == old(captured) - {id} && services == old(services) - {id}
      ensures var service := old(services)[id];
        && service in old(history)
        && history == old(history)[service := old(history)[service] + [Outcome(failed, clock)]]
      ensures old(state.openUntil) <= state.openUntil
      ensures state.openUntil != old(state.openUntil) ==> failed && state.openUntil == clock + OPEN_FOR
    {
      ghost var service := services[id];
      Release(id);
      Record(service, state, failed);
    }

    ghost method Release(id: nat)
      requires Valid() && id in captured
      modifies this`services, this`captured
      ensures Valid() && Entry(old(services)[id], old(captured)[id])
      ensures captured == old(captured) - {id} && services == old(services) - {id}
    {
      assert Entry(services[id], captured[id]);
      captured, services := captured - {id}, services - {id};
    }

    method Record(ghost service: string, state: BreakerState, failed: bool)
      requires Valid() && Entry(service, state)
      modifies this`history, state
      ensures Valid()
      ensures service in old(history)
      ensures history == old(history)[service := old(history)[service] + [Outcome(failed, clock)]]
      ensures old(state.openUntil) <= state.openUntil
      ensures state.openUntil != old(state.openUntil) ==> failed && state.openUntil == clock + OPEN_FOR
    {
      assert Agrees(service);
      ghost var h := history[service];
      state.Complete(failed, clock, h);
      history := history[service := h + [Outcome(failed, clock)]];
      OthersStillAgree(service);
    }

    /** A completion in one service's state leaves the other services alone. */
    twostate lemma OthersStillAgree(service: string)
      requires old(AllAgree()) && service in breakerMap && breakerMap == old(breakerMap) && clock == old(clock)
      requires forall other :: other in breakerMap && other != service ==> unchanged(breakerMap[other])
      requires service in history && history == old(history)[service := history[service]]
      ensures forall other :: other in breakerMap && other != service ==> Agrees(other)
    {
      forall other | other in breakerMap && other != service ensures Agrees(other) {
        StillAgrees(other);
      }
    }
  }

  /** `held` is what the admitted requests have on their own stacks. */
  ghost predicate Consistent(breakers: Breakers, held: map<nat, BreakerState>)
    reads breakers, breakers.breakerMap.Values
  {
    breakers.Valid() && held == breakers.captured
  }

  /** Every state in the map was there before, or is new. */
  twostate predicate NoStrangers(breakers: Breakers)
    reads breakers
  {
    forall service :: service in breakers.breakerMap ==>
      breakers.breakerMap[service] in old(breakers.breakerMap.Values) || fresh(breakers.breakerMap[service])
  }

  method TakeEnter(breakers: Breakers, held: map<nat, BreakerState>, id: nat, service: string, lag: nat)
      returns (held': map<nat, BreakerState>)
    requires Consistent(breakers, held)
    modifies breakers
    ensures Consistent(breakers, held') && NoStrangers(breakers)
    ensures breakers.Snapshot() == Next(old(breakers.Snapshot()), Enter(id, service, lag))
  {
    held' := held;
    if id !in held && lag <= breakers.clock {
      assert service in breakers.breakerMap ==> breakers.Agrees(service);
      var admitted, state := breakers.Begin(id, service, breakers.clock - lag);
      if admitted {
        held' := held[id := state];
      }
    }
  }

  method TakeLeave(breakers: Breakers, held: map<nat, BreakerState>, id: nat, failed: bool)
      returns (held': map<nat, BreakerState>)
    requires Consistent(breakers, held)
    modifies breakers, breakers.breakerMap.Values
    ensures Consistent(breakers, held') && NoStrangers(breakers)
    ensures breakers.Snapshot() == Next(old(breakers.Snapshot()), Leave(id, failed))
  {
    held' := held;
    if id in held {
      breakers.End(id, held[id], failed);
      held' := held - {id};
    }
  }

  /** One turn: the shared state changes as the machine says. */
  method Take(breakers: Breakers, held: map<nat, BreakerState>, turn: Turn) returns (held': map<nat, BreakerState>)
    requires Consistent(breakers, held)
    modifies breakers, breakers.breakerMap.Values
    ensures Consistent(breakers, held') && NoStrangers(breakers)
    ensures breakers.Snapshot() == Next(old(breakers.Snapshot()), turn)
  {
    match turn
    case Enter(id, service, lag) =>
      held' := TakeEnter(breakers, held, id, service, lag);
    case Leave(id, failed) =>
      held' := TakeLeave(breakers, held, id, failed);
    case Wait(ms) =>
      breakers.Tick(ms);
      held' := held;
  }

  /** Any schedule of critical sections, from any number of requests: the shared
      state is that of the machine's run, each service known to the machine has
      one state, and its fields are those that its completions call for. */
  method RunSchedule(turns: seq<Turn>) returns (breakers: Breakers)
    ensures fresh(breakers) && breakers.Valid()
    ensures breakers.Snapshot() == Run(START, turns)
    ensures breakers.breakerMap.Keys == Run(START, turns).history.Keys
    ensures forall service :: service in breakers.breakerMap ==>
      var h, state := Run(START, turns).history[service], breakers.breakerMap[service];
      && 0 <= state.failCount <= 4 && state.failCount == TrailingFailures(h) % 5
      && state.openUntil == OpenedUntil(h)
      && 5 * Openings(h) + state.failCount <= Failures(h)
  {
    breakers := new Breakers();
    var held: map<nat, BreakerState> := map[];
    for i := 0 to |turns|
      invariant fresh(breakers) && Consistent(breakers, held)
      invariant breakers.Snapshot() == Run(START, turns[..i])
      invariant forall service :: service in breakers.breakerMap ==> fresh(breakers.breakerMap[service])
    {
      held := Take(breakers, held, turns[i]);
      assert turns[..i + 1][..i] == turns[..i];
    }
    assert turns[..|turns|] == turns;
    forall service | service in breakers.breakerMap
      ensures breakers.Agrees(service)
      ensures var h := breakers.history[service];
        5 * Openings(h) + TrailingFailures(h) % 5 <= Failures(h)
    {
      FiveFailuresPerOpening(breakers.history[service]);
    }
  }
}
