/**
 No counter is left without an expiry: while no command fails, the request that
 created the counter still owes the EXPIRE, and after a failure the next request
 whose TTL and EXPIRE work puts the expiry back.
 */
module CounterExpiry {
  import opened Wrappers
  import opened RedisStore
  import opened RateLimit
  import opened CounterLives
  import opened MinuteBound

  ghost predicate NoFaults(events: seq<Event>) {
    forall i :: 0 <= i < |events| && events[i].Act? ==> events[i].fault.Fine?
  }

  predicate OwesExpire(call: Call, key: string) {
    call.pc.HitExpire? && call.req.Key(call.pc.c) == key
  }

  /** Some request in flight is about to send the EXPIRE for `key`. */
  ghost predicate Owed(s: System, key: string) {
    exists id :: id in s.calls && OwesExpire(s.calls[id], key)
  }

  predicate Unlimited(st: Store, key: string) {
    key in st.keys && st.keys[key].expiry.None?
  }

  ghost predicate ExpiryOwed(s: System) {
    forall key :: IsCounterKey(key) && Unlimited(s.store, key) ==> Owed(s, key)
  }

  lemma StepCallKeepsOwed(s: System, id: nat, round: nat, key: string)
    requires SystemOk(s) && ExpiryOwed(s)
    requires id in s.calls && !s.calls[id].pc.Done?
    requires IsCounterKey(key) && Unlimited(StepCall(s, id, Fine, round).store, key)
    ensures Owed(StepCall(s, id, Fine, round), key)
  {
    var s' := StepCall(s, id, Fine, round);
    if Unlimited(s.store, key) {
      var other :| other in s.calls && OwesExpire(s.calls[other], key);
      if other == id {
        OwedIsPaid(s, id, round, key);
      } else {
        assert s'.calls[other] == s.calls[other];
      }
    } else {
      CreatorOwes(s, id, round, key);
      assert OwesExpire(s'.calls[id], key);
    }
  }

  /** The EXPIRE gives a counter without an expiry one. */
  lemma OwedIsPaid(s: System, id: nat, round: nat, key: string)
    requires SystemOk(s) && id in s.calls && OwesExpire(s.calls[id], key)
    ensures !Unlimited(StepCall(s, id, Fine, round).store, key)
  {
    if key in s.store.keys { assert EntryOk(s.store, key); }
  }

  /** Only an INCR that creates the counter leaves it without an expiry. */
  lemma CreatorOwes(s: System, id: nat, round: nat, key: string)
    requires SystemOk(s) && id in s.calls && !s.calls[id].pc.Done? && IsCounterKey(key)
    requires !Unlimited(s.store, key) && Unlimited(StepCall(s, id, Fine, round).store, key)
    ensures OwesExpire(StepCall(s, id, Fine, round).calls[id], key)
  {
    var call := s.calls[id];
    assert CallOk(s.store.log, id, call);
    assert NextCommand(call.req, call.pc) == Incr(key);
    KeyKinds(call.req, Strike);
  }

  lemma {:induction false} RunKeepsOwed(now: int, events: seq<Event>)
    requires NoFaults(events)
    ensures ExpiryOwed(Run(Init(now), events))
  {
    if events != [] {
      var before := events[..|events| - 1];
      var ev := events[|events| - 1];
      RunKeepsOwed(now, before);
      RunKeepsSystem(Init(now), before);
      var s := Run(Init(now), before);
      forall key | IsCounterKey(key) && Unlimited(Step(s, ev).store, key) ensures Owed(Step(s, ev), key) {
        if ev.Act? && ev.id in s.calls && !s.calls[ev.id].pc.Done? {
          StepCallKeepsOwed(s, ev.id, ev.round, key);
        } else {
          var other :| other in s.calls && OwesExpire(s.calls[other], key);
          assert Step(s, ev).calls[other] == s.calls[other];
        }
      }
    }
  }

  /** Main result: in a run without failures, once every request has finished,
      every live counter expires within a minute. */
  lemma QuietCountersExpire(now: int, events: seq<Event>, key: string)
    requires NoFaults(events) && IsCounterKey(key)
    requires forall id :: id in Run(Init(now), events).calls ==> Run(Init(now), events).calls[id].pc.Done?
    requires Live(Run(Init(now), events).store, key)
    ensures var st := Run(Init(now), events).store;
      st.keys[key].expiry.Some? && st.now < st.keys[key].expiry.value <= st.now + COUNTER_TTL
  {
    RunKeepsOwed(now, events);
    RunKeepsSystem(Init(now), events);
    assert EntryOk(Run(Init(now), events).store, key);
  }

  /** A counter left without an expiry by a failure is repaired by the next
      request whose TTL and EXPIRE work, whatever happens in between. */
  lemma RepairRestoresExpiry(s: System, id: nat, round: nat, between: seq<Event>, round': nat, key: string)
    requires id in s.calls && s.calls[id].pc.HitTtl? && key == s.calls[id].req.Key(s.calls[id].pc.c)
    requires Unlimited(s.store, key)
    requires forall i :: 0 <= i < |between| && between[i].Act? ==> between[i].id != id
    ensures var s1 := Run(Step(s, Act(id, Fine, round)), between);
      Live(s1.store, key) ==> ExpiresInAMinute(Step(s1, Act(id, Fine, round')).store, key)
  {
    var s0 := Step(s, Act(id, Fine, round));
    TtlLeadsToRepair(s, id, round);
    OthersLeaveCall(s0, between, id);
    RepairSetsExpiry(Run(s0, between), id, round', key);
  }

  predicate ExpiresInAMinute(st: Store, key: string) {
    key in st.keys && st.keys[key].expiry == Some(st.now + COUNTER_TTL)
  }

  lemma TtlLeadsToRepair(s: System, id: nat, round: nat)
    requires id in s.calls && s.calls[id].pc.HitTtl?
    requires Unlimited(s.store, s.calls[id].req.Key(s.calls[id].pc.c))
    ensures var s' := Step(s, Act(id, Fine, round));
      id in s'.calls && s'.calls[id].req == s.calls[id].req
      && s'.calls[id].pc == HitRepair(s.calls[id].pc.c, s.calls[id].pc.count)
  {}

  lemma RepairSetsExpiry(s: System, id: nat, round: nat, key: string)
    requires id in s.calls && s.calls[id].pc.HitRepair? && key == s.calls[id].req.Key(s.calls[id].pc.c)
    ensures Live(s.store, key) ==> ExpiresInAMinute(Step(s, Act(id, Fine, round)).store, key)
  {}

  /** Only its own commands move a request. */
  lemma {:induction false} OthersLeaveCall(s: System, events: seq<Event>, id: nat)
    requires id in s.calls
    requires forall i :: 0 <= i < |events| && events[i].Act? ==> events[i].id != id
    ensures id in Run(s, events).calls && Run(s, events).calls[id] == s.calls[id]
  {
    if events != [] {
      OthersLeaveCall(s, events[..|events| - 1], id);
    }
  }
}
