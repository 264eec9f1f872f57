/**
 The window in which strikes are counted together. Once the first striker's EXPIRE
 has been carried out the window ends when it should, exactly if no EXPIRE of an
 earlier life is still in flight; without it strikes are never forgotten.
 */
module StrikeWindow {
  import opened Wrappers
  import opened RedisStore
  import opened RateLimit
  import opened CounterLives
  import opened MinuteBound
  import opened BoundIsTight
  import opened BlockDuration
  import opened StrikeSeries

  // ---------- the window ends ----------

  /** The life of the key that began at `born` still collects strikes. */
  predicate Collecting(st: Store, key: string, born: int) {
    Live(st, key) && st.keys[key].value.Num? && st.keys[key].born == born
  }

  /** The key collects strikes until `until`. */
  predicate CollectsUntil(st: Store, key: string, born: int, until: int) {
    Collecting(st, key, born) && st.keys[key].expiry == Some(until)
  }

  /** Every strike of that life came before `until`. */
  ghost predicate StrikesBefore(st: Store, key: string, born: int, until: int) {
    forall i :: 0 <= i < |st.log| && st.log[i].key == key && st.log[i].born == born ==> st.log[i].at < until
  }

  /** The life still collects and nothing can prolong it, or it has been blocked, or
      a later one has begun. */
  ghost predicate Ending(s: System, key: string, born: int, until: int) {
    && key in s.store.keys
    && var e := s.store.keys[key];
      || (e.born == born && e.value.Num? && e.expiry == Some(until) && NonePending(s, key))
      || (e.born == born && e.value.Text?)
      || e.born > born
  }

  /** The entry is in one of the three cases; `cmd` does not prolong the first. */
  predicate MayEnd(st: Store, cmd: Command, key: string, born: int, until: int) {
    && key in st.keys && born < until
    && var e := st.keys[key];
      || (e.born == born && e.value.Num? && e.expiry == Some(until) && (cmd.Expire? ==> cmd.key != key))
      || (e.born == born && e.value.Text?)
      || e.born > born
  }

  /** The server's side: what a command makes of the entry. */
  lemma ServeEnds(st: Store, cmd: Command, client: nat, fault: Fault, round: nat, key: string, born: int, until: int)
    requires (key in st.keys ==> EntryOk(st, key)) && MayEnd(st, cmd, key, born, until) && !cmd.SetNx?
    ensures var (st', reply) := Issue(st, cmd, client, fault, round);
      && key in st'.keys
      && var e, e' := st.keys[key], st'.keys[key];
        && (e.born > born || e.value.Text? ==> e'.born > born || (e'.born == born && e'.value.Text?))
        && (e.born == born && e.value.Num? ==>
              e'.born > born || (e'.born == born && (e'.value.Text? || e'.expiry == Some(until))))
        && (cmd == Incr(key) && reply == Integer(1) ==> e'.born > born)
  {
    match cmd
    case Incr(k) =>
    case Expire(k, ms) =>
    case SetEx(k, text, ms) =>
    case Ttl(_) =>
    case Get(_) =>
  }

  /** A strike that a command adds to this life comes before its end. */
  lemma ServeStrikesBefore(st: Store, cmd: Command, client: nat, fault: Fault, round: nat, key: string, born: int, until: int)
    requires (key in st.keys ==> EntryOk(st, key)) && MayEnd(st, cmd, key, born, until)
    requires StrikesBefore(st, key, born, until)
    ensures StrikesBefore(Issue(st, cmd, client, fault, round).0, key, born, until)
  {
    var st' := Issue(st, cmd, client, fault, round).0;
    if st'.log != st.log {
      NewRecord(st, cmd, client, fault, round);
      var x := st'.log[|st.log|];
      assert x.key == key && x.born == born ==> x.at < until;
    }
  }

  lemma NewRecord(st: Store, cmd: Command, client: nat, fault: Fault, round: nat)
    requires Issue(st, cmd, client, fault, round).0.log != st.log
    ensures var st' := Issue(st, cmd, client, fault, round).0;
      && cmd.Incr? && |st'.log| == |st.log| + 1 && st.log <= st'.log
      && var x := st'.log[|st.log|];
        && x.key == cmd.key && x.at == st.now
        && if Live(st, cmd.key) then x.born == st.keys[cmd.key].born && st.keys[cmd.key].value.Num? else x.born == st.now
  {}

  lemma StepEnds(s: System, id: nat, fault: Fault, round: nat, key: string, born: int, until: int)
    requires SystemOk(s) && IsBlockKey(key) && id in s.calls && !s.calls[id].pc.Done? && born < until
    requires Ending(s, key, born, until) && StrikesBefore(s.store, key, born, until)
    ensures var s' := StepCall(s, id, fault, round);
      Ending(s', key, born, until) && StrikesBefore(s'.store, key, born, until)
  {
    var call, cmd := s.calls[id], NextCommand(s.calls[id].req, s.calls[id].pc);
    assert CallOk(s.store.log, id, call);
    CommandsAreAllowed(call.req, call.pc);
    BlockKeyExpiries(call, key);
    assert EntryOk(s.store, key);
    ServeEnds(s.store, cmd, id, fault, round, key, born, until);
    ServeStrikesBefore(s.store, cmd, id, fault, round, key, born, until);
    NewPending(s, id, fault, round, key);
  }

  /** A request comes to owe an EXPIRE of the key only by an INCR of it that returns 1. */
  lemma NewPending(s: System, id: nat, fault: Fault, round: nat, key: string)
    requires id in s.calls && !s.calls[id].pc.Done?
    ensures var s', cmd := StepCall(s, id, fault, round), NextCommand(s.calls[id].req, s.calls[id].pc);
      && (ExpirePending(s'.calls[id], key) ==>
            cmd == Incr(key) && Issue(s.store, cmd, id, fault, round).1 == Integer(1))
      && s'.calls == s.calls[id := s'.calls[id]]
  {}

  lemma {:induction false} RunEnds(s: System, events: seq<Event>, key: string, born: int, until: int)
    requires SystemOk(s) && IsBlockKey(key) && born < until
    requires Ending(s, key, born, until) && StrikesBefore(s.store, key, born, until)
    ensures var s' := Run(s, events);
      SystemOk(s') && Ending(s', key, born, until) && StrikesBefore(s'.store, key, born, until)
  {
    if events != [] {
      var s1, ev := Run(s, events[..|events| - 1]), events[|events| - 1];
      RunEnds(s, events[..|events| - 1], key, born, until);
      StepKeepsSystem(s1, ev);
      if ev.Act? && ev.id in s1.calls && !s1.calls[ev.id].pc.Done? {
        StepEnds(s1, ev.id, ev.fault, ev.round, key, born, until);
      } else {
        IdleEnds(s1, ev, key, born, until);
      }
    }
  }

  lemma IdleEnds(s: System, ev: Event, key: string, born: int, until: int)
    requires Ending(s, key, born, until) && StrikesBefore(s.store, key, born, until)
    requires ev.Act? ==> ev.id !in s.calls || s.calls[ev.id].pc.Done?
    ensures Ending(Step(s, ev), key, born, until) && StrikesBefore(Step(s, ev).store, key, born, until)
  {
    var s' := Step(s, ev);
    if NonePending(s, key) {
      forall id | id in s'.calls ensures !ExpirePending(s'.calls[id], key) {
        if id in s.calls { assert s'.calls[id] == s.calls[id]; }
      }
    }
  }

  lemma StrikesSoFar(s: System, key: string, born: int, until: int)
    requires SystemOk(s) && CollectsUntil(s.store, key, born, until)
    ensures born < until && StrikesBefore(s.store, key, born, until)
  {
    assert EntryOk(s.store, key);
    forall i | 0 <= i < |s.store.log| && s.store.log[i].key == key ensures s.store.log[i].at < until {
      assert RecordOk(s.store, s.store.log[i]);
    }
  }

  /** In every continuation, that life is over from `until` on. */
  ghost predicate EndsBy(s: System, key: string, born: int, until: int) {
    forall events :: Run(s, events).store.now >= until ==> !Collecting(Run(s, events).store, key, born)
  }

  /** Main result: a life that collects until `until` is certain to end by then if
      and only if no EXPIRE of its key is in flight. */
  lemma EndsByIff(s: System, key: string, born: int, until: int)
    requires SystemOk(s) && IsBlockKey(key) && CollectsUntil(s.store, key, born, until)
    ensures EndsBy(s, key, born, until) <==> NonePending(s, key)
  {
    StrikesSoFar(s, key, born, until);
    if NonePending(s, key) {
      forall events | Run(s, events).store.now >= until ensures !Collecting(Run(s, events).store, key, born) {
        RunEnds(s, events, key, born, until);
      }
    } else {
      var id :| id in s.calls && ExpirePending(s.calls[id], key);
      LateExpireProlongs(s, id, key, born, until);
    }
  }

  lemma LateExpireProlongs(s: System, id: nat, key: string, born: int, until: int)
    requires CollectsUntil(s.store, key, born, until) && id in s.calls && ExpirePending(s.calls[id], key)
    ensures !EndsBy(s, key, born, until)
  {
    var s1 := Step(s, Tick(until - 1 - s.store.now));
    var s2 := Step(s1, Act(id, Fine, 0));
    var s3 := Step(s2, Tick(1));
    Prolonged(s1, id, key, born);
    StepLeads(s, Tick(until - 1 - s.store.now));
    StepLeads(s1, Act(id, Fine, 0));
    StepLeads(s2, Tick(1));
    LeadsOn(s, s1, s2);
    LeadsOn(s, s2, s3);
    var events :| Run(s, events) == s3;
  }

  lemma Prolonged(s: System, id: nat, key: string, born: int)
    requires Collecting(s.store, key, born) && id in s.calls && ExpirePending(s.calls[id], key)
    ensures var st := Step(s, Act(id, Fine, 0)).store;
      st.now == s.store.now && Collecting(st, key, born) && st.keys[key].expiry.value >= st.now + 1000
  {}

  /** Main result: from the moment the first striker's EXPIRE is carried out, whether
      or not its reply arrives, every strike of that life comes within the window,
      unless an EXPIRE of an earlier life is in flight. */
  lemma StrikesFallInWindow(now: int, before: seq<Event>, id: nat, fault: Fault, round: nat, after: seq<Event>, key: string)
    requires !fault.NeverSent?
    requires var s := Run(Init(now), before);
      && id in s.calls && ExpirePending(s.calls[id], key)
      && Live(s.store, key) && s.store.keys[key].value.Num?
      && forall other :: other in s.calls && other != id ==> !ExpirePending(s.calls[other], key)
    ensures var s := Run(Init(now), before);
      var until := s.store.now + 1000 * s.calls[id].req.Block().windowSeconds;
      StrikesBefore(Run(Step(s, Act(id, fault, round)), after).store, key, s.store.keys[key].born, until)
  {
    RunKeepsSystem(Init(now), before);
    WindowHolds(Run(Init(now), before), id, fault, round, after, key);
  }

  lemma WindowHolds(s: System, id: nat, fault: Fault, round: nat, after: seq<Event>, key: string)
    requires SystemOk(s) && !fault.NeverSent? && id in s.calls && ExpirePending(s.calls[id], key)
    requires Live(s.store, key) && s.store.keys[key].value.Num?
    requires forall other :: other in s.calls && other != id ==> !ExpirePending(s.calls[other], key)
    ensures var until := s.store.now + 1000 * s.calls[id].req.Block().windowSeconds;
      StrikesBefore(Run(Step(s, Act(id, fault, round)), after).store, key, s.store.keys[key].born, until)
  {
    var s1 := Step(s, Act(id, fault, round));
    var born, until := s.store.keys[key].born, s.store.now + 1000 * s.calls[id].req.Block().windowSeconds;
    StepKeepsSystem(s, Act(id, fault, round));
    ExpireStartsWindow(s, id, fault, round, key);
    KeyKinds(s.calls[id].req, Strike);
    StrikesSoFar(s1, key, born, until);
    RunEnds(s1, after, key, born, until);
  }

  lemma ExpireStartsWindow(s: System, id: nat, fault: Fault, round: nat, key: string)
    requires !fault.NeverSent? && id in s.calls && ExpirePending(s.calls[id], key)
    requires Live(s.store, key) && s.store.keys[key].value.Num?
    requires forall other :: other in s.calls && other != id ==> !ExpirePending(s.calls[other], key)
    ensures var s' := Step(s, Act(id, fault, round));
      && CollectsUntil(s'.store, key, s.store.keys[key].born, s.store.now + 1000 * s.calls[id].req.Block().windowSeconds)
      && NonePending(s', key)
  {}

  // ---------- the window that never ends ----------

  /** The first striker's EXPIRE never reaches the server. */
  lemma LosesExpire(s: System, r: Request, t: int, n: nat, next: nat, id: nat) returns (s': System)
    requires Struck(s, r, t, n, 1, next) && id in s.calls && s.calls[id].pc.StrikeExpire?
    ensures Struck(s', r, t, n, 1, next) && Leads(s, s')
  {
    s' := Step(s, Act(id, NeverSent, 0));
    StepLeads(s, Act(id, NeverSent, 0));
    LeadsOn(Init(0), s, s');
  }

  /** Time passes; the limit starts anew, the strikes stay. */
  lemma Pauses(s: System, r: Request, t: int, n: nat, k: nat, next: nat, gap: nat) returns (s': System)
    requires Struck(s, r, t, n, k, next) && n > 0 && gap >= COUNTER_TTL
    ensures Struck(s', r, t + gap, 0, k, next) && Leads(s, s')
  {
    s' := Step(s, Tick(gap));
    StepLeads(s, Tick(gap));
    LeadsOn(Init(0), s, s');
  }

  /** The time of the j-th strike when one comes every `gap`. */
  function TimeOf(j: nat, gap: nat): nat {
    if j <= 1 then 0 else TimeOf(j - 1, gap) + gap
  }

  ghost predicate AllAt(log: seq<Incremented>, key: string, k: nat, gap: nat) {
    forall j: nat :: 1 <= j <= k ==> StrikeAt(log, key, j, TimeOf(j, gap))
  }

  lemma OneMoreAt(s: System, s': System, key: string, k: nat, gap: nat)
    requires Leads(s, s') && AllAt(s.store.log, key, k, gap)
    requires StrikeAt(s'.store.log, key, k + 1, TimeOf(k + 1, gap))
    ensures AllAt(s'.store.log, key, k + 1, gap)
  {
    forall j: nat | 1 <= j <= k + 1 ensures StrikeAt(s'.store.log, key, j, TimeOf(j, gap)) {
      if j <= k { StrikeStaysCounted(s, s', key, j, TimeOf(j, gap)); }
    }
  }

  lemma FirstOfMany(r: Request, gap: nat) returns (s: System, next: nat)
    requires Strikes(r)
    ensures Struck(s, r, 0, r.GlobalLimit() + 1, 1, next) && AllAt(s.store.log, r.Key(Strike), 1, gap)
  {
    var g := r.GlobalLimit();
    NothingYet(r);
    var s1 := LimitIsUsed(Init(0), r, 0, g, 0, 0);
    var s2 := OneStrike(s1, r, 0, g, 0, g);
    s := LosesExpire(s2, r, 0, g + 1, g + 1, g);
    next := g + 1;
    StrikeStaysCounted(s2, s, r.Key(Strike), 1, 0);
  }

  lemma NextOfMany(s: System, r: Request, k: nat, next: nat, gap: nat) returns (s': System, id: nat)
    requires Strikes(r) && gap >= COUNTER_TTL && 1 <= k < r.Block().threshold
    requires Struck(s, r, TimeOf(k, gap), r.GlobalLimit() + 1, k, next) && AllAt(s.store.log, r.Key(Strike), k, gap)
    ensures Struck(s', r, TimeOf(k + 1, gap), r.GlobalLimit() + 1, k + 1, id + 1) && AllAt(s'.store.log, r.Key(Strike), k + 1, gap)
    ensures id in s'.calls && s'.calls[id].pc == AfterStrike(r, k + 1)
  {
    var g, t := r.GlobalLimit(), TimeOf(k + 1, gap);
    var s1 := Pauses(s, r, TimeOf(k, gap), g + 1, k, next, gap);
    var s2 := LimitIsUsed(s1, r, t, g, k, next);
    id := next + g;
    s' := OneStrike(s2, r, t, g, k, id);
    LeadsOn(s, s1, s2);
    LeadsOn(s, s2, s');
    OneMoreAt(s, s', r.Key(Strike), k, gap);
  }

  lemma {:induction false} Many(r: Request, k: nat, gap: nat) returns (s: System, next: nat)
    requires Strikes(r) && gap >= COUNTER_TTL && 1 <= k <= r.Block().threshold
    ensures Struck(s, r, TimeOf(k, gap), r.GlobalLimit() + 1, k, next) && AllAt(s.store.log, r.Key(Strike), k, gap)
    ensures k > 1 ==> next > 0 && next - 1 in s.calls && s.calls[next - 1].pc == AfterStrike(r, k)
  {
    if k == 1 {
      s, next := FirstOfMany(r, gap);
    } else {
      var s1, next1 := Many(r, k - 1, gap);
      var id;
      s, id := NextOfMany(s1, r, k - 1, next1, gap);
      next := id + 1;
    }
  }

  /** Main result: if the first striker's EXPIRE is lost, strikes that lie any time
      of a minute or more apart add up to a block, whatever the window. */
  lemma LostExpireNeverForgets(r: Request, gap: nat)
    requires Strikes(r) && r.Block().threshold > 1 && gap >= COUNTER_TTL
    ensures exists events ::
      var st := Run(Init(0), events).store;
      Blocked(st, r.Key(Strike)) && AllAt(st.log, r.Key(Strike), r.Block().threshold, gap)
  {
    var t := r.Block().threshold;
    var s, next := Many(r, t, gap);
    var s' := SetsBlock(s, r, TimeOf(t, gap), r.GlobalLimit() + 1, t, next, next - 1);
    SetUntilIsBlocked(s'.store, r.Key(Strike), s'.store.now + 1000 * r.Block().durationSeconds);
    forall j: nat | 1 <= j <= t ensures StrikeAt(s'.store.log, r.Key(Strike), j, TimeOf(j, gap)) {
      StrikeStaysCounted(s, s', r.Key(Strike), j, TimeOf(j, gap));
    }
    var events :| Run(Init(0), events) == s';
  }
}
