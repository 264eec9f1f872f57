/**
 Runs from an empty server in which requests of one kind use up their limit and
 then strike, one after the other.
 */
module StrikeSeries {
  import opened Wrappers
  import opened RedisStore
  import opened RateLimit
  import opened CounterLives
  import opened MinuteBound
  import opened BoundIsTight
  import BlockDuration

  /** A request that is counted and may strike; its limit and threshold leave the
      64-bit counters room. */
  predicate Strikes(r: Request) {
    r.perMinute > 0 && r.StrikesApply() && r.GlobalLimit() + r.Block().threshold + 2 < MAX_INT64
  }

  /** The key holds k strikes, the first of them at time 0, and does not expire. */
  predicate StrikeCount(st: Store, key: string, k: nat) {
    if k == 0 then key !in st.keys
    else key in st.keys && st.keys[key].value == Num(k) && st.keys[key].expiry.None? && st.keys[key].born == 0
  }

  /** At time t, after n hits at that time and k strikes; requests are numbered below
      `next`. */
  ghost predicate Struck(s: System, r: Request, t: int, n: nat, k: nat, next: nat) {
    && Leads(Init(0), s) && s.store.now == t
    && (n > 0 ==> Stands(s.store, r.Key(Global), n, t + COUNTER_TTL))
    && (n == 0 ==> !Live(s.store, r.Key(Global)))
    && StrikeCount(s.store, r.Key(Strike), k)
    && IdsBelow(s, next) && (forall id :: id in s.calls ==> s.calls[id].req == r)
  }

  /** No earlier request has moved. */
  predicate Untouched(s: System, s': System) {
    forall id :: id in s.calls ==> id in s'.calls && s'.calls[id] == s.calls[id]
  }

  lemma Enters(s: System, r: Request, t: int, n: nat, k: nat, id: nat) returns (s': System)
    requires Strikes(r) && Struck(s, r, t, n, k, id)
    ensures Leads(s, s') && s'.store == s.store
    ensures s'.calls == s.calls[id := Call(r, HitIncr(Global), map[], {})]
  {
    var s1 := Step(s, Arrive(id, r));
    s' := Works(s1, id);
    StepLeads(s, Arrive(id, r));
    StepLeads(s1, Act(id, Fine, 0));
    LeadsOn(s, s1, s');
  }

  /** One more request reaches the global counter and gets count n + 1. */
  lemma Counts(s: System, r: Request, t: int, n: nat, k: nat, id: nat) returns (s': System)
    requires Strikes(r) && Struck(s, r, t, n, k, id) && n + 1 < MAX_INT64
    ensures Struck(s', r, t, n + 1, k, id + 1) && Leads(s, s') && Untouched(s, s')
    ensures id in s'.calls && s'.calls[id].pc == AfterCount(r, Global, n + 1)
  {
    var s1 := Enters(s, r, t, n, k, id);
    if n == 0 {
      s' := FirstHit(s1, id, Global);
    } else {
      s' := LaterHit(s1, id, Global, n, t + COUNTER_TTL);
    }
    LeadsOn(s, s1, s');
    LeadsOn(Init(0), s, s');
    BlockKeyKept(s1.store, s'.store, r, k);
  }

  lemma BlockKeyKept(st: Store, st': Store, r: Request, k: nat)
    requires StrikeCount(st, r.Key(Strike), k) && st'.keys - {r.Key(Global)} == st.keys - {r.Key(Global)}
    ensures StrikeCount(st', r.Key(Strike), k)
  {
    KeyKinds(r, Global);
    KeyKinds(r, Strike);
    var key, g := r.Key(Strike), r.Key(Global);
    assert key in st.keys <==> key in st.keys - {g};
    assert key in st'.keys <==> key in st'.keys - {g};
    if key in st.keys { assert st'.keys[key] == (st'.keys - {g})[key] == (st.keys - {g})[key]; }
  }

  /** n requests at one time, none past the limit. */
  lemma {:induction false} LimitIsUsed(s: System, r: Request, t: int, n: nat, k: nat, next: nat) returns (s': System)
    requires Strikes(r) && Struck(s, r, t, 0, k, next) && n <= r.GlobalLimit()
    ensures Struck(s', r, t, n, k, next + n) && Leads(s, s') && Untouched(s, s')
  {
    if n == 0 {
      s' := s;
      assert Run(s, []) == s;
    } else {
      var s1 := LimitIsUsed(s, r, t, n - 1, k, next);
      s' := Counts(s1, r, t, n - 1, k, next + n - 1);
      LeadsOn(s, s1, s');
    }
  }

  /** The strike with this count was made at time t. */
  ghost predicate StrikeAt(log: seq<Incremented>, key: string, count: int, t: int) {
    exists i :: 0 <= i < |log| && log[i].key == key && log[i].born == 0 && log[i].count == count && log[i].at == t
  }

  /** Where a strike's count takes the request. */
  function AfterStrike(r: Request, count: nat): Pc {
    if count == 1 then StrikeExpire else if count >= r.Block().threshold then StrikeSet else Done(false)
  }

  /** One more request, past the limit, strikes. */
  lemma OneStrike(s: System, r: Request, t: int, n: nat, k: nat, id: nat) returns (s': System)
    requires Strikes(r) && Struck(s, r, t, n, k, id) && r.GlobalLimit() <= n && n + 1 < MAX_INT64 && k + 1 < MAX_INT64
    requires k == 0 ==> t == 0
    ensures Struck(s', r, t, n + 1, k + 1, id + 1) && Leads(s, s') && Untouched(s, s')
    ensures id in s'.calls && s'.calls[id].pc == AfterStrike(r, k + 1)
    ensures StrikeAt(s'.store.log, r.Key(Strike), k + 1, t)
  {
    var s1 := Counts(s, r, t, n, k, id);
    s' := Works(s1, id);
    StepLeads(s1, Act(id, Fine, 0));
    LeadsOn(s, s1, s');
    LeadsOn(Init(0), s1, s');
    KeyKinds(r, Global);
    KeyKinds(r, Strike);
    StrikeLands(s1, r, id, k);
    assert s'.store.log[|s1.store.log|].count == k + 1;
  }

  lemma StrikeLands(s: System, r: Request, id: nat, k: nat)
    requires id in s.calls && s.calls[id].req == r && s.calls[id].pc == StrikeIncr
    requires StrikeCount(s.store, r.Key(Strike), k) && k < MAX_INT64 && (k == 0 ==> s.store.now == 0)
    ensures var s', key := Works(s, id), r.Key(Strike);
      && StrikeCount(s'.store, key, k + 1) && s'.store.now == s.store.now
      && (forall other :: other != key ==> (other in s.store.keys <==> other in s'.store.keys))
      && (forall other :: other != key && other in s.store.keys ==> s'.store.keys[other] == s.store.keys[other])
      && s'.calls == s.calls[id := s'.calls[id]] && s'.calls[id].req == r && s'.calls[id].pc == AfterStrike(r, k + 1)
      && s'.store.log == s.store.log + [Incremented(key, id, s.store.now, 0, k + 1)]
  {}

  lemma LogsGrow(s: System, s': System)
    requires Leads(s, s')
    ensures s.store.log <= s'.store.log
  {
    var events :| Run(s, events) == s';
    RunKeepsLog(s, events);
  }

  lemma {:induction false} RunKeepsLog(s: System, events: seq<Event>)
    ensures s.store.log <= Run(s, events).store.log
  {
    if events != [] {
      var s1, ev := Run(s, events[..|events| - 1]), events[|events| - 1];
      RunKeepsLog(s, events[..|events| - 1]);
      if ev.Act? && ev.id in s1.calls && !s1.calls[ev.id].pc.Done? {
        LogGrows(s1.store, NextCommand(s1.calls[ev.id].req, s1.calls[ev.id].pc), ev.id, ev.fault, ev.round);
      }
    }
  }

  lemma StrikeStaysCounted(s: System, s': System, key: string, count: int, t: int)
    requires Leads(s, s') && StrikeAt(s.store.log, key, count, t)
    ensures StrikeAt(s'.store.log, key, count, t)
  {
    LogsGrow(s, s');
    var i :| 0 <= i < |s.store.log| && s.store.log[i].key == key && s.store.log[i].born == 0
             && s.store.log[i].count == count && s.store.log[i].at == t;
    assert s'.store.log[i] == s.store.log[i];
  }

  lemma NothingYet(r: Request)
    ensures Struck(Init(0), r, 0, 0, 0, 0)
  {
    assert Run(Init(0), []) == Init(0);
  }

  lemma AllReadTheSame(s: System, r: Request, t: int, n: nat, k: nat, next: nat)
    requires Struck(s, r, t, n, k, next)
    ensures BlockDuration.CallsConfigured(s, r.Key(Strike), r.Block().windowSeconds, r.Block().durationSeconds)
    ensures r.Block().windowSeconds > 0 && r.Block().durationSeconds > 0
  {}

  /** A request at its SET sends it: a block of full duration begins. */
  lemma SetsBlock(s: System, r: Request, t: int, n: nat, k: nat, next: nat, id: nat) returns (s': System)
    requires Struck(s, r, t, n, k, next) && id in s.calls && s.calls[id].pc.StrikeSet?
    ensures Leads(Init(0), s') && Leads(s, s') && (forall o :: o in s.calls && o != id ==> o in s'.calls && s'.calls[o] == s.calls[o])
    ensures BlockDuration.JustSet(s', r.Key(Strike), r.Block().windowSeconds, r.Block().durationSeconds)
  {
    var events :| Run(Init(0), events) == s;
    RunKeepsSystem(Init(0), events);
    AllReadTheSame(s, r, t, n, k, next);
    BlockDuration.SetStartsBlock(s, id, 0, r.Key(Strike), r.Block().windowSeconds, r.Block().durationSeconds);
    s' := Works(s, id);
    StepLeads(s, Act(id, Fine, 0));
    LeadsOn(Init(0), s, s');
    OthersStay(s, id);
  }

  lemma OthersStay(s: System, id: nat)
    ensures forall o :: o in s.calls && o != id ==> o in Works(s, id).calls && Works(s, id).calls[o] == s.calls[o]
  {}
}
