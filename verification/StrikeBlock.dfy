/**
 The strike counter that turns into a block. One key counts strikes and is then
 overwritten with BLOCKED; the INCR, the EXPIRE and the SET of different requests
 interleave freely.
 */
module StrikeBlock {
  import opened Wrappers
  import opened Strings
  import opened RedisStore
  import opened RateLimit
  import opened CounterLives
  import opened MinuteBound
  import opened CounterExpiry

  // ---------- a block needs a full series of strikes ----------

  predicate BeforeStrike(pc: Pc) {
    pc.CheckBlock? || pc.HitIncr? || pc.HitExpire? || pc.HitTtl? || pc.HitRepair? || pc.StrikeIncr?
  }

  /** The record of the strike that request `id` got a count for. */
  predicate HasStrike(s: System, id: nat) {
    id in s.calls && Strike in s.calls[id].hits && s.calls[id].hits[Strike] < |s.store.log|
  }

  function StrikeRecord(s: System, id: nat): Incremented
    requires HasStrike(s, id)
  {
    s.store.log[s.calls[id].hits[Strike]]
  }

  /** Request `id` struck `key` with a count that calls for the block. */
  predicate Enough(s: System, id: nat, key: string) {
    HasStrike(s, id) && s.calls[id].req.Key(Strike) == key
    && StrikeRecord(s, id).count >= s.calls[id].req.Block().threshold
  }

  ghost predicate StrikePcOk(s: System, id: nat)
    requires id in s.calls
  {
    var call := s.calls[id];
    && (BeforeStrike(call.pc) ==> Strike !in call.hits)
    && (call.pc.StrikeExpire? ==> HasStrike(s, id) && StrikeRecord(s, id).count == 1)
    && (call.pc.StrikeSet? ==> Enough(s, id, call.req.Key(Strike)))
  }

  ghost predicate StrikesOk(s: System) {
    forall id :: id in s.calls ==> StrikePcOk(s, id)
  }

  /** A step leaves the strike of every request but the acting one as it was. */
  lemma StepKeepsStrike(s: System, id: nat, fault: Fault, round: nat, other: nat)
    requires SystemOk(s) && id in s.calls && !s.calls[id].pc.Done?
    requires other in s.calls && (other == id ==> !s.calls[id].pc.StrikeIncr?)
    ensures var s' := StepCall(s, id, fault, round);
      && other in s'.calls && s'.calls[other].req == s.calls[other].req
      && (HasStrike(s, other) ==> HasStrike(s', other) && StrikeRecord(s', other) == StrikeRecord(s, other))
      && (Strike in s'.calls[other].hits ==> HasStrike(s, other))
  {
    LogGrows(s.store, NextCommand(s.calls[id].req, s.calls[id].pc), id, fault, round);
    assert CallOk(s.store.log, other, s.calls[other]);
    assert forall i :: 0 <= i < |s.store.log| ==> StepCall(s, id, fault, round).store.log[i] == s.store.log[i];
  }

  /** The INCR of a strike leaves its record behind and decides what follows. */
  lemma StrikeIncrRecorded(s: System, id: nat, fault: Fault, round: nat)
    requires id in s.calls && s.calls[id].pc.StrikeIncr? && Strike !in s.calls[id].hits
    ensures var s' := StepCall(s, id, fault, round);
      var call' := s'.calls[id];
      if Strike in call'.hits then
        && HasStrike(s', id)
        && StrikeRecord(s', id) == Incremented(call'.req.Key(Strike), id, s.store.now, s'.store.keys[call'.req.Key(Strike)].born, s'.store.keys[call'.req.Key(Strike)].value.n)
        && var n := StrikeRecord(s', id).count;
        call'.pc == if n == 1 then StrikeExpire else if n >= call'.req.Block().threshold then StrikeSet else Done(false)
      else call'.pc == Done(false)
  {
    LogGrows(s.store, NextCommand(s.calls[id].req, s.calls[id].pc), id, fault, round);
  }

  lemma StepCallKeepsStrikePc(s: System, id: nat, fault: Fault, round: nat)
    requires SystemOk(s) && StrikesOk(s) && id in s.calls && !s.calls[id].pc.Done?
    ensures StrikePcOk(StepCall(s, id, fault, round), id)
  {
    assert StrikePcOk(s, id);
    if s.calls[id].pc.StrikeIncr? {
      StrikeIncrRecorded(s, id, fault, round);
    } else {
      StepKeepsStrike(s, id, fault, round, id);
      NonStrikePcs(s, id, fault, round);
    }
  }

  lemma NonStrikePcs(s: System, id: nat, fault: Fault, round: nat)
    requires id in s.calls && !s.calls[id].pc.Done? && !s.calls[id].pc.StrikeIncr?
    ensures var pc, call' := s.calls[id].pc, StepCall(s, id, fault, round).calls[id];
      && !call'.pc.StrikeExpire?
      && (call'.pc.StrikeSet? ==> pc.StrikeExpire? && 1 >= call'.req.Block().threshold)
      && (BeforeStrike(call'.pc) ==> BeforeStrike(pc))
  {}

  lemma StepKeepsStrikes(s: System, ev: Event)
    requires SystemOk(s) && StrikesOk(s)
    ensures StrikesOk(Step(s, ev))
  {
    var s' := Step(s, ev);
    if ev.Act? && ev.id in s.calls && !s.calls[ev.id].pc.Done? {
      var call := s.calls[ev.id];
      StepCallKeepsStrikePc(s, ev.id, ev.fault, ev.round);
      forall id | id in s'.calls ensures StrikePcOk(s', id) {
        if id != ev.id {
          assert StrikePcOk(s, id);
          StepKeepsStrike(s, ev.id, ev.fault, ev.round, id);
        }
      }
    } else {
      OtherEventsKeepStrikes(s, ev);
    }
  }

  lemma OnlySetWritesText(s: System, id: nat, fault: Fault, round: nat, key: string)
    requires id in s.calls && !s.calls[id].pc.Done?
    requires var st' := StepCall(s, id, fault, round).store; key in st'.keys && st'.keys[key].value.Text?
    ensures (key in s.store.keys && s.store.keys[key].value.Text?)
            || (s.calls[id].pc.StrikeSet? && key == s.calls[id].req.Key(Strike))
  {}

  lemma OtherEventsKeepStrikes(s: System, ev: Event)
    requires StrikesOk(s)
    requires ev.Act? ==> ev.id !in s.calls || s.calls[ev.id].pc.Done?
    ensures StrikesOk(Step(s, ev))
  {
    var s' := Step(s, ev);
    forall id | id in s'.calls ensures StrikePcOk(s', id) {
      if id in s.calls { assert StrikePcOk(s, id) && s'.calls[id] == s.calls[id]; }
    }
  }

  lemma {:induction false} RunKeepsStrikes(now: int, events: seq<Event>)
    ensures SystemOk(Run(Init(now), events)) && StrikesOk(Run(Init(now), events))
  {
    RunKeepsSystem(Init(now), events);
    if events != [] {
      RunKeepsStrikes(now, events[..|events| - 1]);
      StepKeepsStrikes(Run(Init(now), events[..|events| - 1]), events[|events| - 1]);
    }
  }

  lemma {:induction false} AllSmallerCounted(st: Store, key: string, born: int, count: int, smaller: int)
    requires Consecutive(st) && Counted(st.log, key, born, count) && 1 <= smaller <= count
    ensures Counted(st.log, key, born, smaller)
    decreases count
  {
    if smaller < count {
      var i :| 0 <= i < |st.log| && st.log[i].key == key && st.log[i].born == born && st.log[i].count == count;
      assert Counted(st.log, key, born, count - 1);
      AllSmallerCounted(st, key, born, count - 1, smaller);
    }
  }

  /** The strike of request `id` is on record with a count at or above its own
      threshold, and INCRs returned 1, 2, ... up to that count in that same life
      of the key. */
  ghost predicate FullSeries(s: System, id: nat) {
    && id in s.calls && Enough(s, id, s.calls[id].req.Key(Strike))
    && var x, key := StrikeRecord(s, id), s.calls[id].req.Key(Strike);
      && x.client == id && x.key == key
      && forall n :: 1 <= n <= x.count ==> Counted(s.store.log, key, x.born, n)
  }

  /** Main result: in every run, whoever is about to send the SET has made the
      last strike of a full series. */
  lemma SetNeedsFullSeries(now: int, events: seq<Event>, id: nat)
    requires var s := Run(Init(now), events); id in s.calls && s.calls[id].pc.StrikeSet?
    ensures FullSeries(Run(Init(now), events), id)
  {
    RunKeepsStrikes(now, events);
    var s := Run(Init(now), events);
    assert StrikePcOk(s, id) && CallOk(s.store.log, id, s.calls[id]);
    var x := StrikeRecord(s, id);
    assert Counted(s.store.log, x.key, x.born, x.count);
    forall n | 1 <= n <= x.count ensures Counted(s.store.log, x.key, x.born, n) {
      AllSmallerCounted(s.store, x.key, x.born, x.count, n);
    }
  }

  predicate ReadsText(st: Store, key: string) {
    key in st.keys && st.keys[key].value.Text?
  }

  /** The event delivers a request's SET of the key. */
  predicate Sets(s: System, ev: Event, key: string) {
    && ev.Act? && !ev.fault.NeverSent?
    && ev.id in s.calls && s.calls[ev.id].pc.StrikeSet? && s.calls[ev.id].req.Key(Strike) == key
  }

  /** Text appears in a key by a delivered SET only. */
  lemma TextComesFromSet(s: System, ev: Event, key: string)
    requires ReadsText(Step(s, ev).store, key) && !Sets(s, ev, key)
    ensures ReadsText(s.store, key)
  {
    if ev.Act? && ev.id in s.calls && !s.calls[ev.id].pc.Done? {
      OnlySetWritesText(s, ev.id, ev.fault, ev.round, key);
    }
  }

  function After(now: int, events: seq<Event>, j: nat): System
    requires j <= |events|
  {
    Run(Init(now), events[..j])
  }

  predicate SetsAt(now: int, events: seq<Event>, key: string, j: nat)
    requires j < |events|
  {
    Sets(After(now, events, j), events[j], key)
  }

  /** Event i is the SET that the key's text stems from: it was sent after a full
      series of strikes, no later SET was delivered, and the text has stayed. */
  ghost predicate StemsFrom(now: int, events: seq<Event>, key: string, i: nat) {
    && i < |events|
    && SetsAt(now, events, key, i) && FullSeries(After(now, events, i), events[i].id)
    && (forall j :: i < j < |events| ==> !SetsAt(now, events, key, j))
    && (forall j :: i < j <= |events| ==> ReadsText(After(now, events, j).store, key))
  }

  /** Main result: whenever a key holds BLOCKED, some event of the run is the SET
      it stems from. */
  lemma {:induction false} BlockedNeedsStrikes(now: int, events: seq<Event>, key: string) returns (i: nat)
    requires ReadsText(After(now, events, |events|).store, key)
    ensures StemsFrom(now, events, key, i)
  {
    var last := |events| - 1;
    var before := events[..last];
    assert events[..|events|] == events && before[..last] == before;
    if SetsAt(now, events, key, last) {
      SetNeedsFullSeries(now, before, events[last].id);
      i := last;
    } else {
      TextComesFromSet(After(now, events, last), events[last], key);
      i := BlockedNeedsStrikes(now, before, key);
      StemsOn(now, events, key, i);
    }
  }

  lemma StemsOn(now: int, events: seq<Event>, key: string, i: nat)
    requires events != [] && StemsFrom(now, events[..|events| - 1], key, i)
    requires !SetsAt(now, events, key, |events| - 1) && ReadsText(After(now, events, |events|).store, key)
    ensures StemsFrom(now, events, key, i)
  {
    var before := events[..|events| - 1];
    forall j | 0 <= j < |events| ensures After(now, before, j) == After(now, events, j) {
      assert before[..j] == events[..j];
    }
    forall j | i < j < |events| ensures !SetsAt(now, events, key, j) {
      if j < |before| { assert !SetsAt(now, before, key, j); }
    }
    forall j | i < j <= |events| ensures ReadsText(After(now, events, j).store, key) {
      if j <= |before| { assert ReadsText(After(now, before, j).store, key); }
    }
  }
}
