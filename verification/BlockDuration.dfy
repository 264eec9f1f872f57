/**
 How long a block lasts. After the SET a late EXPIRE of an earlier strike may
 still arrive and cut the block down to the strike window; the block certainly
 lasts its full duration exactly when no such EXPIRE is in flight.
 */
module BlockDuration {
  import opened Wrappers
  import opened Strings
  import opened RedisStore
  import opened RateLimit
  import opened CounterLives
  import opened MinuteBound

  /** Every request that strikes `key` reads the same window and duration (in seconds). */
  predicate Configured(r: Request, key: string, window: int, duration: int) {
    r.Key(Strike) == key ==>
      r.Block().windowSeconds == window && r.Block().durationSeconds == duration
  }

  ghost predicate CallsConfigured(s: System, key: string, window: int, duration: int) {
    forall id :: id in s.calls ==> Configured(s.calls[id].req, key, window, duration)
  }

  ghost predicate EventsConfigured(events: seq<Event>, key: string, window: int, duration: int) {
    forall i :: 0 <= i < |events| && events[i].Arrive? ==> Configured(events[i].req, key, window, duration)
  }

  predicate SetUntil(st: Store, key: string, until: int) {
    && key in st.keys && st.keys[key].value.Text?
    && st.keys[key].expiry.Some? && st.keys[key].expiry.value >= until
  }

  predicate Blocked(st: Store, key: string) {
    Live(st, key) && SaysBlocked(st.keys[key].value)
  }

  lemma BlockedText()
    ensures SaysBlocked(Text("BLOCKED"))
  {
    TrimSpaceTrims("BLOCKED");
    var s := "BLOCKED";
    forall i | 0 <= i < |s| ensures UpperChar(s[i]) == s[i] {}
    assert ToUpper(s) == s;
  }

  lemma BlockedReads(st: Store, key: string)
    requires key in st.keys && st.keys[key].value == Text("BLOCKED")
    ensures Live(st, key) <==> Blocked(st, key)
  {
    BlockedText();
  }

  // ---------- what can happen to a set key while it lasts ----------

  /** A late EXPIRE for `key` is in flight. */
  predicate ExpirePending(call: Call, key: string) {
    call.pc.StrikeExpire? && call.req.Key(Strike) == key
  }

  ghost predicate NonePending(s: System, key: string) {
    forall id :: id in s.calls ==> !ExpirePending(s.calls[id], key)
  }

  /** The server's side: what a command does to a live set key. */
  lemma ServeOnSetKey(st: Store, cmd: Command, client: nat, fault: Fault, round: nat, key: string, until: int)
    requires SetUntil(st, key, until) && st.now < until
    requires cmd.Expire? && cmd.key == key ==> until <= st.now + cmd.ms
    requires cmd.SetEx? && cmd.key == key ==> until <= st.now + cmd.ms
    ensures SetUntil(Issue(st, cmd, client, fault, round).0, key, until)
  {}

  /** The requests' side: on a block key only a late EXPIRE and a SET set an expiry. */
  lemma BlockKeyExpiries(call: Call, key: string)
    requires !call.pc.Done? && IsBlockKey(key)
    requires (call.pc.HitIncr? || call.pc.HitExpire? || call.pc.HitTtl? || call.pc.HitRepair?) ==> !call.pc.c.Strike?
    ensures var cmd := NextCommand(call.req, call.pc);
      && (cmd.Expire? && cmd.key == key ==>
            ExpirePending(call, key) && cmd.ms == call.req.Block().windowSeconds * 1000)
      && (cmd.SetEx? && cmd.key == key ==>
            call.req.Key(Strike) == key && cmd.ms == call.req.Block().durationSeconds * 1000)
  {
    if call.pc.HitExpire? || call.pc.HitRepair? {
      KeyKinds(call.req, call.pc.c);
      assert call.req.Key(call.pc.c)[11] != key[11];
    }
  }

  /** One step: the expiry of a live set key stays late enough. */
  lemma SetKeySurvives(s: System, id: nat, fault: Fault, round: nat, key: string, until: int, window: int, duration: int)
    requires SystemOk(s) && CallsConfigured(s, key, window, duration) && IsBlockKey(key)
    requires id in s.calls && !s.calls[id].pc.Done?
    requires SetUntil(s.store, key, until) && s.store.now < until
    requires until <= s.store.now + 1000 * duration
    requires until <= s.store.now + 1000 * window || !ExpirePending(s.calls[id], key)
    ensures SetUntil(StepCall(s, id, fault, round).store, key, until)
  {
    var call := s.calls[id];
    assert CallOk(s.store.log, id, call);
    assert Configured(call.req, key, window, duration);
    BlockKeyExpiries(call, key);
    ServeOnSetKey(s.store, NextCommand(call.req, call.pc), id, fault, round, key, until);
  }

  /** While the key is set no strike gets a count, so no new EXPIRE becomes due. */
  lemma NoNewPending(s: System, id: nat, fault: Fault, round: nat, key: string)
    requires id in s.calls && !s.calls[id].pc.Done? && Live(s.store, key) && s.store.keys[key].value.Text?
    ensures ExpirePending(StepCall(s, id, fault, round).calls[id], key) ==> false
  {}

  lemma {:induction false} SetKeyLasts(s: System, events: seq<Event>, key: string, until: int, window: int, duration: int)
    requires SystemOk(s) && CallsConfigured(s, key, window, duration) && IsBlockKey(key)
    requires EventsConfigured(events, key, window, duration)
    requires SetUntil(s.store, key, until) && until <= s.store.now + 1000 * duration
    requires until <= s.store.now + 1000 * window || NonePending(s, key)
    requires Run(s, events).store.now < until
    ensures var s' := Run(s, events);
      && SystemOk(s') && CallsConfigured(s', key, window, duration) && s'.store.now >= s.store.now
      && SetUntil(s'.store, key, until)
      && (until <= s.store.now + 1000 * window || NonePending(s', key))
  {
    if events != [] {
      var before, ev := events[..|events| - 1], events[|events| - 1];
      var s1 := Run(s, before);
      TimeOnlyAdvances(s1, ev);
      SetKeyLasts(s, before, key, until, window, duration);
      StepKeepsSystem(s1, ev);
      StepKeepsConfigured(s1, ev, key, window, duration);
      if ev.Act? && ev.id in s1.calls && !s1.calls[ev.id].pc.Done? {
        SetKeySurvives(s1, ev.id, ev.fault, ev.round, key, until, window, duration);
        NoNewPending(s1, ev.id, ev.fault, ev.round, key);
      }
    }
  }

  lemma TimeOnlyAdvances(s: System, ev: Event)
    ensures Step(s, ev).store.now >= s.store.now
  {}

  lemma StepKeepsConfigured(s: System, ev: Event, key: string, window: int, duration: int)
    requires CallsConfigured(s, key, window, duration)
    requires ev.Arrive? ==> Configured(ev.req, key, window, duration)
    ensures CallsConfigured(Step(s, ev), key, window, duration)
  {
    forall id | id in Step(s, ev).calls ensures Configured(Step(s, ev).calls[id].req, key, window, duration) {
      if id in s.calls { assert Configured(s.calls[id].req, key, window, duration); }
    }
  }

  // ---------- results ----------

  /** The state right after a SET: the key is BLOCKED for the full duration. */
  ghost predicate JustSet(s: System, key: string, window: int, duration: int) {
    && SystemOk(s) && IsBlockKey(key) && CallsConfigured(s, key, window, duration)
    && window > 0 && duration > 0
    && key in s.store.keys && s.store.keys[key].value.Text?
    && s.store.keys[key].expiry == Some(s.store.now + 1000 * duration)
  }

  /** In every continuation the key reads BLOCKED until `until`. */
  ghost predicate StaysBlocked(s: System, key: string, window: int, duration: int, until: int) {
    forall events :: EventsConfigured(events, key, window, duration) && Run(s, events).store.now < until ==>
      Blocked(Run(s, events).store, key)
  }

  /** A set key reads BLOCKED until `until` if nothing in flight can shorten it. */
  lemma LastsUntil(s: System, key: string, window: int, duration: int, until: int)
    requires JustSet(s, key, window, duration) && until <= s.store.now + 1000 * duration
    requires until <= s.store.now + 1000 * window || NonePending(s, key)
    ensures StaysBlocked(s, key, window, duration, until)
  {
    forall events | EventsConfigured(events, key, window, duration) && Run(s, events).store.now < until
      ensures Blocked(Run(s, events).store, key)
    {
      SetKeyLasts(s, events, key, until, window, duration);
      SetUntilIsBlocked(Run(s, events).store, key, until);
    }
  }

  lemma SetUntilIsBlocked(st: Store, key: string, until: int)
    requires StoreOk(st) && SetUntil(st, key, until) && st.now < until
    ensures Blocked(st, key)
  {
    assert EntryOk(st, key);
    BlockedReads(st, key);
  }

  /** Main result: whatever is in flight, a block lasts at least the smaller of
      the window and the duration, and only ever ends by expiring. */
  lemma BlockLastsWindowOrDuration(s: System, key: string, window: int, duration: int)
    requires JustSet(s, key, window, duration)
    ensures StaysBlocked(s, key, window, duration, s.store.now + 1000 * (if window < duration then window else duration))
  {
    LastsUntil(s, key, window, duration, s.store.now + 1000 * (if window < duration then window else duration));
  }

  /** Main result: the block is certain to last its full duration if and only if
      no EXPIRE of an earlier strike is in flight, or the window is no shorter. */
  lemma BlockLastsFullDurationIff(s: System, key: string, window: int, duration: int)
    requires JustSet(s, key, window, duration)
    ensures StaysBlocked(s, key, window, duration, s.store.now + 1000 * duration)
            <==> window >= duration || NonePending(s, key)
  {
    if window >= duration || NonePending(s, key) {
      LastsUntil(s, key, window, duration, s.store.now + 1000 * duration);
    } else {
      var id :| id in s.calls && ExpirePending(s.calls[id], key);
      LateExpireCutsBlock(s, id, key, window, duration);
    }
  }

  lemma LateExpireCutsBlock(s: System, id: nat, key: string, window: int, duration: int)
    requires JustSet(s, key, window, duration) && window < duration
    requires id in s.calls && ExpirePending(s.calls[id], key)
    ensures !StaysBlocked(s, key, window, duration, s.store.now + 1000 * duration)
  {
    CutAfterWindow(s, id, key, window, duration);
    var events := [Act(id, Fine, 0), Tick(1000 * window)];
    assert EventsConfigured(events, key, window, duration);
  }

  lemma CutAfterWindow(s: System, id: nat, key: string, window: int, duration: int)
    requires JustSet(s, key, window, duration) && window < duration
    requires id in s.calls && ExpirePending(s.calls[id], key)
    ensures var s' := Run(s, [Act(id, Fine, 0), Tick(1000 * window)]);
      s'.store.now < s.store.now + 1000 * duration && !Blocked(s'.store, key)
  {
    var a, t := Act(id, Fine, 0), Tick(1000 * window);
    RunTwo(s, a, t);
    assert Configured(s.calls[id].req, key, window, duration);
    LateExpire(s, id, key, window);
  }

  lemma LateExpire(s: System, id: nat, key: string, window: int)
    requires id in s.calls && ExpirePending(s.calls[id], key) && Live(s.store, key)
    requires s.calls[id].req.Block().windowSeconds == window
    ensures var st := StepCall(s, id, Fine, 0).store;
      st.now == s.store.now && key in st.keys && st.keys[key].expiry == Some(s.store.now + 1000 * window)
  {}

  lemma RunTwo(s: System, a: Event, b: Event)
    ensures Run(s, [a, b]) == Step(Step(s, a), b)
  {
    assert [a, b][..1] == [a];
    RunOne(s, a);
  }

  /** Every SET that works starts such a block. */
  lemma SetStartsBlock(s: System, id: nat, round: nat, key: string, window: int, duration: int)
    requires SystemOk(s) && CallsConfigured(s, key, window, duration) && window > 0 && duration > 0
    requires id in s.calls && s.calls[id].pc.StrikeSet? && s.calls[id].req.Key(Strike) == key
    ensures JustSet(Step(s, Act(id, Fine, round)), key, window, duration)
  {
    ActKeepsSystem(s, id, Fine, round);
    StepKeepsConfigured(s, Act(id, Fine, round), key, window, duration);
    SetWritesDuration(s, id, round, key, duration);
    assert Configured(s.calls[id].req, key, window, duration);
    assert IsBlockKey(key) by { KeyKinds(s.calls[id].req, Strike); }
  }

  lemma SetWritesDuration(s: System, id: nat, round: nat, key: string, duration: int)
    requires id in s.calls && s.calls[id].pc.StrikeSet? && s.calls[id].req.Key(Strike) == key
    requires s.calls[id].req.Block().durationSeconds == duration
    ensures var st := StepCall(s, id, Fine, round).store;
      && key in st.keys && st.keys[key].value.Text?
      && st.keys[key].expiry == Some(st.now + 1000 * duration)
  {}
}
