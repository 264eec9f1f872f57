/**
 The bound of 2 * L - 1 requests a minute cannot be improved: for every limit
 there is a run that reaches it, so the limit itself is not a per-minute bound.
 */
module BoundIsTight {
  import opened Wrappers
  import opened RedisStore
  import opened RateLimit
  import opened CounterLives
  import opened MinuteBound

  /** A request with nothing but the two counters in its way. */
  predicate Simple(r: Request, max: int) {
    r.perMinute == max && max >= 1 && r.GlobalLimit() >= max && r.route < 0 && !r.StrikesApply()
  }

  /** The counter stands at `n` and lasts until `until`. */
  predicate Stands(st: Store, key: string, n: int, until: int) {
    Live(st, key) && st.keys[key].value == Num(n) && st.keys[key].expiry == Some(until)
  }

  /** Some events lead from s to s'. */
  ghost predicate Leads(s: System, s': System) {
    exists events :: Run(s, events) == s'
  }

  lemma StepLeads(s: System, ev: Event)
    ensures Leads(s, Step(s, ev))
  {
    RunOne(s, ev);
  }

  lemma LeadsOn(s: System, s1: System, s2: System)
    requires Leads(s, s1) && Leads(s1, s2)
    ensures Leads(s, s2)
  {
    var first :| Run(s, first) == s1;
    var second :| Run(s1, second) == s2;
    RunTwice(s, first, second);
  }

  // ---------- one counter call ----------

  /** What one counter call of request `id` leaves behind. */
  ghost predicate Hit(s: System, s': System, id: nat, c: Counter, n: int, until: int) {
    && id in s.calls && !c.Strike? && Leads(s, s')
    && var r := s.calls[id].req;
    && s'.store.now == s.store.now
    && Stands(s'.store, r.Key(c), n, until)
    && s'.store.keys - {r.Key(c)} == s.store.keys - {r.Key(c)}
    && |s'.store.log| == |s.store.log| + 1
    && s'.store.log[|s.store.log|].at == s.store.now
    && s'.calls == s.calls[id := Call(r, AfterCount(r, c, n), s.calls[id].hits[c := |s.store.log|], s.calls[id].failed)]
  }

  function Works(s: System, id: nat): System { Step(s, Act(id, Fine, 0)) }

  lemma LaterHit(s: System, id: nat, c: Counter, n: int, until: int) returns (s': System)
    requires id in s.calls && s.calls[id].pc == HitIncr(c) && !c.Strike?
    requires Stands(s.store, s.calls[id].req.Key(c), n, until) && until >= s.store.now + 1000 && 1 <= n < MAX_INT64
    ensures Hit(s, s', id, c, n + 1, until)
  {
    var s1 := Works(s, id);
    assert s1.calls[id].pc == HitTtl(c, n + 1);
    s' := Works(s1, id);
    assert s'.store == s1.store;
    StepLeads(s, Act(id, Fine, 0));
    StepLeads(s1, Act(id, Fine, 0));
    LeadsOn(s, s1, s');
  }

  lemma FirstHit(s: System, id: nat, c: Counter) returns (s': System)
    requires id in s.calls && s.calls[id].pc == HitIncr(c) && !c.Strike?
    requires !Live(s.store, s.calls[id].req.Key(c))
    ensures Hit(s, s', id, c, 1, s.store.now + COUNTER_TTL)
  {
    var s1 := Works(s, id);
    assert s1.calls[id].pc == HitExpire(c);
    var s2 := Works(s1, id);
    assert s2.calls[id].pc == HitTtl(c, 1);
    s' := Works(s2, id);
    assert s'.store == s2.store;
    StepLeads(s, Act(id, Fine, 0));
    StepLeads(s1, Act(id, Fine, 0));
    LeadsOn(s, s1, s2);
    StepLeads(s2, Act(id, Fine, 0));
    LeadsOn(s, s2, s');
  }

  // ---------- one request ----------

  /** Both counters of the request stand at `n`. */
  predicate Both(st: Store, r: Request, n: int, until: int) {
    Stands(st, r.Key(Global), n, until) && Stands(st, r.Key(Path), n, until)
  }

  /** One request is admitted, seen from the states around it. */
  ghost predicate Served(s: System, s': System, id: nat, r: Request, n: int, until: int) {
    && Leads(s, s') && s'.store.now == s.store.now && Both(s'.store, r, n, until)
    && s'.calls.Keys == s.calls.Keys + {id}
    && id in s'.calls && s'.calls[id].req == r && s'.calls[id].pc == Done(true) && s'.calls[id].failed == {}
    && Path in s'.calls[id].hits && s'.calls[id].hits[Path] < |s'.store.log|
    && s'.store.log[s'.calls[id].hits[Path]].at == s.store.now
  }

  lemma TwoHitsServe(s0: System, s1: System, s2: System, s3: System, id: nat, r: Request, max: int, n: int, until: int)
    requires Simple(r, max) && id !in s0.calls && s1 == Step(s0, Arrive(id, r))
    requires 1 <= n <= max
    requires Hit(s1, s2, id, Global, n, until) && Hit(s2, s3, id, Path, n, until)
    ensures Served(s0, s3, id, r, n, until)
  {
    KeyKinds(r, Path);
    var g := r.Key(Global);
    assert g in s2.store.keys - {r.Key(Path)};
    assert s3.store.keys[g] == (s3.store.keys - {r.Key(Path)})[g] == s2.store.keys[g];
    StepLeads(s0, Arrive(id, r));
    LeadsOn(s0, s1, s2);
    LeadsOn(s0, s2, s3);
  }

  lemma OtherCounterStands(s: System, s': System, id: nat, r: Request, n: int, n': int, until: int)
    requires id in s.calls && s.calls[id].req == r && Hit(s, s', id, Global, n', until)
    ensures Stands(s.store, r.Key(Path), n, until) ==> Stands(s'.store, r.Key(Path), n, until)
    ensures !Live(s.store, r.Key(Path)) ==> !Live(s'.store, r.Key(Path))
  {
    KeyKinds(r, Path);
    var p, g := r.Key(Path), r.Key(Global);
    assert p in s.store.keys <==> p in s.store.keys - {g};
    assert p in s'.store.keys <==> p in s'.store.keys - {g};
    if p in s.store.keys { assert (s.store.keys - {g})[p] == s.store.keys[p]; }
    if p in s'.store.keys { assert (s'.store.keys - {g})[p] == s'.store.keys[p]; }
  }

  lemma LaterIsServed(s: System, id: nat, r: Request, max: int, n: int, until: int) returns (s': System)
    requires Simple(r, max) && id !in s.calls && Both(s.store, r, n, until)
    requires until >= s.store.now + 1000 && 1 <= n < max <= MAX_INT64
    ensures Served(s, s', id, r, n + 1, until)
  {
    var s1 := Step(s, Arrive(id, r));
    var s2 := LaterHit(s1, id, Global, n, until);
    OtherCounterStands(s1, s2, id, r, n, n + 1, until);
    s' := LaterHit(s2, id, Path, n, until);
    TwoHitsServe(s, s1, s2, s', id, r, max, n + 1, until);
  }

  lemma FirstIsServed(s: System, id: nat, r: Request, max: int) returns (s': System)
    requires Simple(r, max) && id !in s.calls && !Live(s.store, r.Key(Global)) && !Live(s.store, r.Key(Path))
    ensures Served(s, s', id, r, 1, s.store.now + COUNTER_TTL)
  {
    var s1 := Step(s, Arrive(id, r));
    var s2 := FirstHit(s1, id, Global);
    OtherCounterStands(s1, s2, id, r, 1, 1, s.store.now + COUNTER_TTL);
    s' := FirstHit(s2, id, Path);
    TwoHitsServe(s, s1, s2, s', id, r, max, 1, s.store.now + COUNTER_TTL);
  }

  // ---------- many requests ----------

  /** The requests numbered from..to are all admitted in the minute. */
  ghost predicate AllCount(s: System, from: nat, to: nat, key: string, max: int, t: int) {
    forall id: nat :: from <= id < to ==> id in AdmittedInMinute(s, Path, key, max, t)
  }

  predicate IdsBelow(s: System, bound: nat) {
    forall id :: id in s.calls ==> id < bound
  }

  lemma StepKeepsAdmitted(s: System, ev: Event, key: string, max: int, t: int)
    ensures AdmittedInMinute(s, Path, key, max, t) <= AdmittedInMinute(Step(s, ev), Path, key, max, t)
  {
    if ev.Act? && ev.id in s.calls && !s.calls[ev.id].pc.Done? {
      LogGrows(s.store, NextCommand(s.calls[ev.id].req, s.calls[ev.id].pc), ev.id, ev.fault, ev.round);
    }
  }

  /** Once admitted, always admitted. */
  lemma {:induction false} RunKeepsAdmitted(s: System, events: seq<Event>, key: string, max: int, t: int)
    ensures AdmittedInMinute(s, Path, key, max, t) <= AdmittedInMinute(Run(s, events), Path, key, max, t)
  {
    if events != [] {
      RunKeepsAdmitted(s, events[..|events| - 1], key, max, t);
      StepKeepsAdmitted(Run(s, events[..|events| - 1]), events[|events| - 1], key, max, t);
    }
  }

  lemma LeadsKeepsCount(s: System, s': System, from: nat, to: nat, key: string, max: int, t: int)
    requires Leads(s, s') && AllCount(s, from, to, key, max, t)
    ensures AllCount(s', from, to, key, max, t)
  {
    var events :| Run(s, events) == s';
    RunKeepsAdmitted(s, events, key, max, t);
  }

  /** Requests from..next are admitted, the counters stand at `n`, and it is `now`. */
  ghost predicate BatchDone(s: System, r: Request, now: int, n: int, until: int, from: nat, next: nat, max: int, t: int) {
    && s.store.now == now && Both(s.store, r, n, until)
    && IdsBelow(s, next) && AllCount(s, from, next, r.Key(Path), max, t)
  }

  lemma ServedCounts(s: System, s': System, r: Request, max: int, from: nat, next: nat, n: int, until: int, t: int)
    requires Simple(r, max) && t <= s.store.now < t + COUNTER_TTL
    requires Served(s, s', next, r, n, until) && IdsBelow(s, next) && AllCount(s, from, next, r.Key(Path), max, t)
    ensures BatchDone(s', r, s.store.now, n, until, from, next + 1, max, t)
  {
    LeadsKeepsCount(s, s', from, next, r.Key(Path), max, t);
  }

  /** m more requests, one after the other at one moment. */
  lemma {:induction false} BatchIsServed(s: System, r: Request, max: int, now: int, from: nat, next: nat, m: nat, until: int, t: int)
    returns (s': System)
    requires Simple(r, max) && until >= now + 1000 && m < max <= MAX_INT64 && t <= now < t + COUNTER_TTL && from <= next
    requires BatchDone(s, r, now, 1, until, from, next, max, t)
    ensures Leads(s, s') && BatchDone(s', r, now, m + 1, until, from, next + m, max, t)
  {
    if m == 0 {
      assert Run(s, []) == s;
      s' := s;
    } else {
      var s1 := BatchIsServed(s, r, max, now, from, next, m - 1, until, t);
      s' := LaterIsServed(s1, next + m - 1, r, max, m, until);
      ServedCounts(s1, s', r, max, from, next + m - 1, m + 1, until, t);
      LeadsOn(s, s1, s');
    }
  }

  /** One request at 0 s and max - 1 at 59 s ... */
  lemma FirstHalf(r: Request, max: nat) returns (s: System)
    requires Simple(r, max) && max <= MAX_INT64
    ensures Leads(Init(0), s) && s.store.now == 60_000
    ensures !Live(s.store, r.Key(Global)) && !Live(s.store, r.Key(Path))
    ensures IdsBelow(s, max) && AllCount(s, 1, max, r.Key(Path), max, 59_000)
  {
    var s1 := FirstIsServed(Init(0), 0, r, max);
    var s2 := Step(s1, Tick(59_000));
    StepLeads(s1, Tick(59_000));
    LeadsOn(Init(0), s1, s2);
    var s3 := BatchIsServed(s2, r, max, 59_000, 1, 1, max - 1, 60_000, 59_000);
    LeadsOn(Init(0), s2, s3);
    s := Step(s3, Tick(1_000));
    StepLeads(s3, Tick(1_000));
    LeadsOn(Init(0), s3, s);
    LeadsKeepsCount(s3, s, 1, max, r.Key(Path), max, 59_000);
  }

  /** ... and max more at 60 s. */
  lemma Burst(r: Request, max: nat) returns (s: System)
    requires Simple(r, max) && max <= MAX_INT64
    ensures Leads(Init(0), s) && AllCount(s, 1, 2 * max, r.Key(Path), max, 59_000)
  {
    var s1 := FirstHalf(r, max);
    var s2 := FirstIsServed(s1, max, r, max);
    ServedCounts(s1, s2, r, max, 1, max, 1, 120_000, 59_000);
    s := BatchIsServed(s2, r, max, 60_000, 1, max + 1, max - 1, 120_000, 59_000);
    LeadsOn(Init(0), s1, s2);
    LeadsOn(Init(0), s2, s);
  }

  function Between(from: nat, to: nat): (ids: set<nat>)
    requires from <= to
    ensures forall id: nat :: id in ids <==> from <= id < to
    ensures |ids| == to - from
  {
    if from == to then {} else Between(from, to - 1) + {to - 1}
  }

  /** Main result: for every limit there is a run that admits exactly 2 * max - 1
      requests in one minute, the most that any run can. */
  lemma BoundIsReached(r: Request, max: nat)
    requires Simple(r, max) && max <= MAX_INT64
    ensures exists events :: |AdmittedInMinute(Run(Init(0), events), Path, r.Key(Path), max, 59_000)| == 2 * max - 1
  {
    var s := Burst(r, max);
    var events :| Run(Init(0), events) == s;
    ManyCount(s, r.Key(Path), max);
    FewerThanTwiceTheLimit(0, events, Path, r.Key(Path), max, 59_000);
  }

  lemma ManyCount(s: System, key: string, max: nat)
    requires max >= 1 && AllCount(s, 1, 2 * max, key, max, 59_000)
    ensures |AdmittedInMinute(s, Path, key, max, 59_000)| >= 2 * max - 1
  {
    var all := AdmittedInMinute(s, Path, key, max, 59_000);
    SubsetSize(Between(1, 2 * max), all);
  }

  lemma {:induction false} SubsetSize(a: set<nat>, b: set<nat>)
    requires a <= b
    ensures |a| <= |b|
  {
    if x :| x in a { SubsetSize(a - {x}, b - {x}); }
  }
}
