/**
 In a run without failures every full series of strikes ends in a block: a live
 count at or above the threshold always has a request that still owes the SET.
 */
module BlockSettles {
  import opened Wrappers
  import opened RedisStore
  import opened RateLimit
  import opened CounterLives
  import opened MinuteBound
  import opened CounterExpiry
  import opened StrikeBlock

  /** The next commands of this request include the SET of its block key. */
  predicate OwesSet(call: Call) {
    call.pc.StrikeSet? || (call.pc.StrikeExpire? && 1 >= call.req.Block().threshold)
  }

  /** Request `id` made the latest strike on `key`: its count is the stored value. */
  predicate LastStriker(s: System, id: nat, key: string)
    requires key in s.store.keys
  {
    var e := s.store.keys[key];
    && HasStrike(s, id) && s.calls[id].req.Key(Strike) == key
    && e.value.Num? && StrikeRecord(s, id).born == e.born && StrikeRecord(s, id).count == e.value.n
  }

  /** A finished request with enough strikes has done its SET, so the life it
      struck in no longer counts. */
  ghost predicate Settled(s: System, id: nat) {
    HasStrike(s, id) && Enough(s, id, s.calls[id].req.Key(Strike)) && !OwesSet(s.calls[id]) ==>
      var key := s.calls[id].req.Key(Strike);
      key in s.store.keys && (s.store.keys[key].value.Text? || s.store.keys[key].born > StrikeRecord(s, id).born)
  }

  ghost predicate HasLastStriker(s: System, key: string)
    requires key in s.store.keys
  {
    exists id :: id in s.calls && LastStriker(s, id, key)
  }

  ghost predicate SettlesOk(s: System) {
    && (forall id :: id in s.calls ==> Settled(s, id))
    && (forall key :: key in s.store.keys && IsBlockKey(key) && s.store.keys[key].value.Num? ==>
          HasLastStriker(s, key))
  }

  /** A key keeps its value and life, is incremented, or is set. */
  lemma ServeChanges(st: Store, cmd: Command, client: nat, round: nat, key: string)
    requires key in st.keys ==> EntryOk(st, key)
    requires !cmd.SetNx?
    requires key in Serve(st, cmd, client, round).0.keys
    ensures var e' := Serve(st, cmd, client, round).0.keys[key];
      || (key in st.keys && e'.value == st.keys[key].value && e'.born == st.keys[key].born)
      || (cmd == Incr(key) && e'.value.Num?
          && (key in st.keys ==> e'.born > st.keys[key].born
                                 || (e'.born == st.keys[key].born && st.keys[key].value.Num?)))
      || (cmd.SetEx? && cmd.key == key && e'.value.Text?)
  {
    match cmd
    case Incr(k) =>
    case Expire(k, ms) =>
    case SetEx(k, text, ms) =>
    case Ttl(_) =>
    case Get(_) =>
  }

  /** On a block key only a strike increments and only StrikeSet sets. */
  lemma BlockKeyCommands(call: Call, key: string)
    requires !call.pc.Done? && IsBlockKey(key)
    requires call.pc.HitIncr? ==> !call.pc.c.Strike?
    ensures NextCommand(call.req, call.pc) == Incr(key) ==> call.pc.StrikeIncr? && call.req.Key(Strike) == key
    ensures NextCommand(call.req, call.pc).SetEx? && NextCommand(call.req, call.pc).key == key ==>
              call.pc.StrikeSet? && call.req.Key(Strike) == key
  {
    if call.pc.HitIncr? {
      KeyKinds(call.req, call.pc.c);
      assert call.req.Key(call.pc.c)[11] != key[11];
    }
  }

  lemma KeyChanges(s: System, id: nat, round: nat, key: string)
    requires SystemOk(s) && id in s.calls && !s.calls[id].pc.Done? && IsBlockKey(key)
    requires key in StepCall(s, id, Fine, round).store.keys
    ensures var call, e' := s.calls[id], StepCall(s, id, Fine, round).store.keys[key];
      || (key in s.store.keys && e'.value == s.store.keys[key].value && e'.born == s.store.keys[key].born)
      || (call.pc.StrikeIncr? && call.req.Key(Strike) == key && e'.value.Num?
          && (key in s.store.keys ==> e'.born > s.store.keys[key].born
                                      || (e'.born == s.store.keys[key].born && s.store.keys[key].value.Num?)))
      || (call.pc.StrikeSet? && call.req.Key(Strike) == key && e'.value.Text?)
  {
    var call := s.calls[id];
    assert CallOk(s.store.log, id, call);
    BlockKeyCommands(call, key);
    ServeChanges(s.store, NextCommand(call.req, call.pc), id, round, key);
  }

  lemma StepKeepsSettled(s: System, id: nat, round: nat, other: nat)
    requires SystemOk(s) && StrikesOk(s) && SettlesOk(s)
    requires id in s.calls && !s.calls[id].pc.Done? && other in s.calls && other != id
    ensures Settled(StepCall(s, id, Fine, round), other)
  {
    StepKeepsStrike(s, id, Fine, round, other);
    assert Settled(s, other) && CallOk(s.store.log, other, s.calls[other]);
    var key := s.calls[other].req.Key(Strike);
    if HasStrike(s, other) && Enough(s, other, key) && !OwesSet(s.calls[other]) {
      KeyKinds(s.calls[other].req, Strike);
      KeysStay(s, id, round, key);
      KeyChanges(s, id, round, key);
    }
  }

  lemma KeysStay(s: System, id: nat, round: nat, key: string)
    requires id in s.calls && !s.calls[id].pc.Done?
    ensures key in s.store.keys ==> key in StepCall(s, id, Fine, round).store.keys
  {}

  /** The acting request settles its own strike. */
  lemma OwnStepSettles(s: System, id: nat, round: nat)
    requires SystemOk(s) && StrikesOk(s) && SettlesOk(s)
    requires id in s.calls && !s.calls[id].pc.Done?
    ensures Settled(StepCall(s, id, Fine, round), id)
  {
    assert StrikePcOk(s, id);
    if s.calls[id].pc.StrikeIncr? {
      StrikeIncrRecorded(s, id, Fine, round);
    } else {
      StepKeepsStrike(s, id, Fine, round, id);
      if s.calls[id].pc.StrikeSet? {
        SetWrites(s, id, round);
      } else if s.calls[id].pc.StrikeExpire? {
        ExpireThenSet(s, id, round);
      }
    }
  }

  lemma SetWrites(s: System, id: nat, round: nat)
    requires id in s.calls && s.calls[id].pc.StrikeSet?
    ensures var s', key := StepCall(s, id, Fine, round), s.calls[id].req.Key(Strike);
      key in s'.store.keys && s'.store.keys[key].value.Text? && s'.calls[id].req == s.calls[id].req
  {}

  lemma ExpireThenSet(s: System, id: nat, round: nat)
    requires id in s.calls && s.calls[id].pc.StrikeExpire?
    ensures var call' := StepCall(s, id, Fine, round).calls[id];
      call'.req == s.calls[id].req && (call'.pc.StrikeSet? <==> 1 >= call'.req.Block().threshold)
  {}

  lemma StepKeepsLastStriker(s: System, id: nat, round: nat, key: string)
    requires SystemOk(s) && StrikesOk(s) && SettlesOk(s)
    requires id in s.calls && !s.calls[id].pc.Done?
    requires var st' := StepCall(s, id, Fine, round).store;
      key in st'.keys && IsBlockKey(key) && st'.keys[key].value.Num?
    ensures HasLastStriker(StepCall(s, id, Fine, round), key)
  {
    var s' := StepCall(s, id, Fine, round);
    KeyChanges(s, id, round, key);
    if key in s.store.keys && s.store.keys[key].value == s'.store.keys[key].value && s.store.keys[key].born == s'.store.keys[key].born {
      var last :| last in s.calls && LastStriker(s, last, key);
      LastStrikerStays(s, id, round, key, last);
    } else {
      StrikerIsLast(s, id, round, key);
    }
  }

  lemma LastStrikerStays(s: System, id: nat, round: nat, key: string, last: nat)
    requires SystemOk(s) && StrikesOk(s)
    requires id in s.calls && !s.calls[id].pc.Done?
    requires last in s.calls && key in s.store.keys && LastStriker(s, last, key)
    requires var st' := StepCall(s, id, Fine, round).store;
      key in st'.keys && st'.keys[key].value == s.store.keys[key].value && st'.keys[key].born == s.store.keys[key].born
    ensures LastStriker(StepCall(s, id, Fine, round), last, key)
  {
    assert StrikePcOk(s, last);
    StepKeepsStrike(s, id, Fine, round, last);
  }

  lemma StrikerIsLast(s: System, id: nat, round: nat, key: string)
    requires id in s.calls && s.calls[id].pc.StrikeIncr? && s.calls[id].req.Key(Strike) == key
    requires StrikesOk(s)
    requires var st' := StepCall(s, id, Fine, round).store;
      key in st'.keys && st'.keys[key].value.Num?
      && (key in s.store.keys ==> st'.keys[key] != s.store.keys[key])
    ensures LastStriker(StepCall(s, id, Fine, round), id, key)
  {
    assert StrikePcOk(s, id);
    StrikeIncrRecorded(s, id, Fine, round);
  }

  lemma {:induction false} RunSettles(now: int, events: seq<Event>)
    requires NoFaults(events)
    ensures SettlesOk(Run(Init(now), events))
  {
    if events != [] {
      var before, ev := events[..|events| - 1], events[|events| - 1];
      RunSettles(now, before);
      RunKeepsStrikes(now, before);
      var s := Run(Init(now), before);
      if ev.Act? && ev.id in s.calls && !s.calls[ev.id].pc.Done? {
        StepSettles(s, ev.id, ev.round);
      } else {
        OtherEventsSettle(s, ev);
      }
    }
  }

  lemma StepSettles(s: System, id: nat, round: nat)
    requires SystemOk(s) && StrikesOk(s) && SettlesOk(s)
    requires id in s.calls && !s.calls[id].pc.Done?
    ensures SettlesOk(StepCall(s, id, Fine, round))
  {
    var s' := StepCall(s, id, Fine, round);
    OwnStepSettles(s, id, round);
    forall other | other in s'.calls ensures Settled(s', other) {
      if other != id { StepKeepsSettled(s, id, round, other); }
    }
    forall key | key in s'.store.keys && IsBlockKey(key) && s'.store.keys[key].value.Num?
      ensures HasLastStriker(s', key)
    {
      StepKeepsLastStriker(s, id, round, key);
    }
  }

  lemma OtherEventsSettle(s: System, ev: Event)
    requires SettlesOk(s)
    requires ev.Act? ==> ev.id !in s.calls || s.calls[ev.id].pc.Done?
    ensures SettlesOk(Step(s, ev))
  {
    var s' := Step(s, ev);
    forall id | id in s'.calls ensures Settled(s', id) {
      if id in s.calls { assert Settled(s, id) && s'.calls[id] == s.calls[id]; }
    }
    forall key | key in s'.store.keys && IsBlockKey(key) && s'.store.keys[key].value.Num?
      ensures HasLastStriker(s', key)
    {
      var last :| last in s.calls && LastStriker(s, last, key);
      assert LastStriker(s', last, key);
    }
  }

  /** Main result: in a run without failures, a strike count at or above the
      threshold of the request that made the last strike means that this very
      request is still in flight and owes the SET. */
  lemma FullCountOwesBlock(now: int, events: seq<Event>, key: string) returns (last: nat)
    requires NoFaults(events) && IsBlockKey(key)
    requires var st := Run(Init(now), events).store; key in st.keys && st.keys[key].value.Num?
    ensures var s := Run(Init(now), events);
      && last in s.calls && s.calls[last].req.Key(Strike) == key
      && (s.store.keys[key].value.n >= s.calls[last].req.Block().threshold ==> OwesSet(s.calls[last]))
  {
    RunSettles(now, events);
    var s := Run(Init(now), events);
    last :| last in s.calls && LastStriker(s, last, key);
    assert Settled(s, last);
  }

  /** So once all requests have finished, no count has reached the threshold. */
  lemma QuietCountsAreBelowThreshold(now: int, events: seq<Event>, key: string, threshold: int)
    requires NoFaults(events) && IsBlockKey(key)
    requires var s := Run(Init(now), events);
      && key in s.store.keys && s.store.keys[key].value.Num?
      && forall id :: id in s.calls ==> s.calls[id].pc.Done? && s.calls[id].req.Block().threshold == threshold
    ensures Run(Init(now), events).store.keys[key].value.n < threshold
  {
    var last := FullCountOwesBlock(now, events, key);
  }
}
