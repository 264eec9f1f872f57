/**
 Safety of both limits over every run: with limits at most L, any half-open
 60-second span of INCR times admits at most 2 * L - 1 requests per counter key.
 */
module MinuteBound {
  import opened Wrappers
  import opened RedisStore
  import opened RateLimit
  import opened CounterLives

  /** Must this request, if admitted, have been counted on counter k? A fail-closed
      request is counted on its path whatever fails. */
  predicate MustBeCounted(call: Call, k: Counter) {
    match k
    case Global => call.req.perMinute > 0 && Global !in call.failed
    case Path => call.req.perMinute > 0 && call.req.route != 0 && (call.req.failClosed || Path !in call.failed)
    case Strike => false
  }

  function Limit(r: Request, k: Counter): int {
    match k
    case Global => r.GlobalLimit()
    case Path => r.PathLimit()
    case Strike => 0
  }

  /** If the request must be counted on k, it was, with a count within the limit. */
  predicate WithinLimit(log: seq<Incremented>, call: Call, k: Counter)
    requires forall c :: c in call.hits ==> call.hits[c] < |log|
  {
    MustBeCounted(call, k) ==> k in call.hits && log[call.hits[k]].count <= Limit(call.req, k)
  }

  ghost predicate HitsOk(log: seq<Incremented>, id: nat, call: Call) {
    forall c :: c in call.hits ==>
      call.hits[c] < |log| && log[call.hits[c]].client == id && log[call.hits[c]].key == call.req.Key(c)
  }

  ghost predicate PcOk(log: seq<Incremented>, call: Call)
    requires forall c :: c in call.hits ==> call.hits[c] < |log|
  {
    match call.pc
    case HitIncr(c) => !c.Strike? && (c.Path? ==> WithinLimit(log, call, Global))
    case HitExpire(c) => Counting(log, call, c, 1)
    case HitTtl(c, n) => Counting(log, call, c, n)
    case HitRepair(c, n) => Counting(log, call, c, n)
    case Done(true) => WithinLimit(log, call, Global) && WithinLimit(log, call, Path)
    case _ => true
  }

  /** The INCR of counter c returned n, and the global counter came first. */
  predicate Counting(log: seq<Incremented>, call: Call, c: Counter, n: int)
    requires forall c :: c in call.hits ==> call.hits[c] < |log|
  {
    && !c.Strike? && c in call.hits && log[call.hits[c]].count == n
    && (c.Path? ==> WithinLimit(log, call, Global))
  }

  ghost predicate CallOk(log: seq<Incremented>, id: nat, call: Call) {
    HitsOk(log, id, call) && PcOk(log, call)
  }

  ghost predicate SystemOk(s: System) {
    StoreOk(s.store) && forall id :: id in s.calls ==> CallOk(s.store.log, id, s.calls[id])
  }

  /** A command appends at most one record, and only an INCR that works does. */
  lemma LogGrows(st: Store, cmd: Command, client: nat, fault: Fault, round: nat)
    ensures var (st', reply) := Issue(st, cmd, client, fault, round);
      && st.log <= st'.log
      && (cmd.Incr? && reply.Integer? ==>
            st'.log == st.log + [Incremented(cmd.key, client, st.now, st'.keys[cmd.key].born, reply.n)])
  {}

  lemma StepCallKeepsHits(s: System, id: nat, fault: Fault, round: nat)
    requires id in s.calls && !s.calls[id].pc.Done?
    requires CallOk(s.store.log, id, s.calls[id])
    ensures var s' := StepCall(s, id, fault, round); HitsOk(s'.store.log, id, s'.calls[id])
  {
    var call := s.calls[id];
    var cmd := NextCommand(call.req, call.pc);
    LogGrows(s.store, cmd, id, fault, round);
    var log, log' := s.store.log, StepCall(s, id, fault, round).store.log;
    var call' := StepCall(s, id, fault, round).calls[id];
    forall c | c in call'.hits
      ensures call'.hits[c] < |log'| && log'[call'.hits[c]].client == id && log'[call'.hits[c]].key == call.req.Key(c)
    {
      if call'.hits != call.hits && c == CounterOf(call.pc) {
        assert log'[|log|].key == cmd.key;
      } else {
        assert log'[call.hits[c]] == log[call.hits[c]];
      }
    }
  }

  /** The control state after a reply fits the records the call points at. */
  lemma ReplyKeepsPc(log: seq<Incremented>, call: Call, call': Call, reply: Reply)
    requires !call.pc.Done? && call'.req == call.req && call'.pc == Next(call.req, call.pc, reply)
    requires forall c :: c in call'.hits ==> call'.hits[c] < |log|
    requires forall c :: c in call.hits ==> call.hits[c] < |log|
    requires PcOk(log, call)
    requires call'.failed == if (call.pc.HitIncr? || call.pc.HitExpire? || call.pc.StrikeIncr?) && reply.Err?
                             then call.failed + {CounterOf(call.pc)} else call.failed
    requires call.pc.HitIncr? && reply.Integer? ==>
      call.pc.c in call'.hits && log[call'.hits[call.pc.c]].count == reply.n
    requires forall c :: c in call.hits && c != CounterOf(call.pc) ==>
      c in call'.hits && log[call'.hits[c]] == log[call.hits[c]]
    requires !call.pc.HitIncr? && !call.pc.StrikeIncr? ==> call'.hits == call.hits
    requires call.pc.HitIncr? && !reply.Integer? ==> reply.Err?
    ensures PcOk(log, call')
  {}

  lemma StepCallKeepsCall(s: System, id: nat, fault: Fault, round: nat)
    requires id in s.calls && !s.calls[id].pc.Done?
    requires CallOk(s.store.log, id, s.calls[id])
    ensures var s' := StepCall(s, id, fault, round); CallOk(s'.store.log, id, s'.calls[id])
  {
    StepCallKeepsHits(s, id, fault, round);
    var call := s.calls[id];
    var cmd := NextCommand(call.req, call.pc);
    LogGrows(s.store, cmd, id, fault, round);
    var (st', reply) := Issue(s.store, cmd, id, fault, round);
    PcOkGrows(s.store.log, st'.log, call);
    ReplyKeepsPc(st'.log, call, StepCall(s, id, fault, round).calls[id], reply);
  }

  lemma PcOkGrows(log: seq<Incremented>, log': seq<Incremented>, call: Call)
    requires log <= log'
    requires forall c :: c in call.hits ==> call.hits[c] < |log|
    requires PcOk(log, call)
    ensures PcOk(log', call)
  {
    assert forall i :: 0 <= i < |log| ==> log'[i] == log[i];
  }

  lemma TickKeepsStore(st: Store, ms: nat)
    requires StoreOk(st)
    ensures StoreOk(st.(now := st.now + ms))
  {
    var st' := st.(now := st.now + ms);
    forall k | k in st'.keys ensures EntryOk(st', k) {
      assert EntryOk(st, k);
    }
    forall i | 0 <= i < |st.log| ensures RecordOk(st', st'.log[i]) {
      assert RecordOk(st, st.log[i]);
    }
  }

  lemma LongerLogKeepsCall(log: seq<Incremented>, log': seq<Incremented>, id: nat, call: Call)
    requires CallOk(log, id, call) && log <= log'
    ensures CallOk(log', id, call)
  {
    assert forall i :: 0 <= i < |log| ==> log'[i] == log[i];
    PcOkGrows(log, log', call);
  }

  lemma StepKeepsSystem(s: System, ev: Event)
    requires SystemOk(s)
    ensures SystemOk(Step(s, ev))
  {
    match ev
    case Arrive(id, r) =>
    case Tick(ms) => TickKeepsStore(s.store, ms);
    case Act(id, fault, round) =>
      if id in s.calls && !s.calls[id].pc.Done? {
        ActKeepsSystem(s, id, fault, round);
      }
  }

  lemma ActKeepsSystem(s: System, id: nat, fault: Fault, round: nat)
    requires SystemOk(s) && id in s.calls && !s.calls[id].pc.Done?
    ensures SystemOk(StepCall(s, id, fault, round))
  {
    var call := s.calls[id];
    var cmd := NextCommand(call.req, call.pc);
    CommandsAreAllowed(call.req, call.pc);
    IssueKeepsStore(s.store, cmd, id, fault, round);
    LogGrows(s.store, cmd, id, fault, round);
    StepCallKeepsCall(s, id, fault, round);
    var s' := StepCall(s, id, fault, round);
    forall other | other in s'.calls ensures CallOk(s'.store.log, other, s'.calls[other]) {
      if other != id { LongerLogKeepsCall(s.store.log, s'.store.log, other, s.calls[other]); }
    }
  }

  lemma {:induction false} RunKeepsSystem(s: System, events: seq<Event>)
    requires SystemOk(s)
    ensures SystemOk(Run(s, events))
  {
    if events != [] {
      RunKeepsSystem(s, events[..|events| - 1]);
      StepKeepsSystem(Run(s, events[..|events| - 1]), events[|events| - 1]);
    }
  }

  // ---------- counting ----------

  predicate IsAdmitted(call: Call, k: Counter, key: string, max: int) {
    call.pc == Done(true) && MustBeCounted(call, k) && call.req.Key(k) == key && Limit(call.req, k) <= max
  }

  /** The record of the INCR that request `id` made on its counter k. */
  function CounterRecord(s: System, k: Counter, id: nat): Incremented
    requires id in s.calls && k in s.calls[id].hits && s.calls[id].hits[k] < |s.store.log|
  {
    s.store.log[s.calls[id].hits[k]]
  }

  /** Request `id` was admitted on `key` under a limit of at most `max`, and its
      INCR is on record. For the path counter of a fail-closed path any Redis failure
      is allowed; otherwise the requests whose commands on k worked are meant. */
  predicate Admitted(s: System, k: Counter, id: nat, key: string, max: int) {
    && id in s.calls && IsAdmitted(s.calls[id], k, key, max)
    && k in s.calls[id].hits && s.calls[id].hits[k] < |s.store.log|
  }

  function AdmittedInMinute(s: System, k: Counter, key: string, max: int, t: int): set<nat> {
    set id | id in s.calls && Admitted(s, k, id, key, max) && t <= CounterRecord(s, k, id).at < t + COUNTER_TTL
  }

  lemma AdmittedRecord(s: System, k: Counter, id: nat, key: string, max: int)
    requires SystemOk(s) && Admitted(s, k, id, key, max)
    ensures RecordOk(s.store, CounterRecord(s, k, id))
    ensures CounterRecord(s, k, id).client == id && CounterRecord(s, k, id).key == key && IsCounterKey(key)
    ensures 1 <= CounterRecord(s, k, id).count <= max
  {
    assert CallOk(s.store.log, id, s.calls[id]);
    KeyKinds(s.calls[id].req, k);
  }

  lemma {:induction false} Pigeonhole(ids: set<nat>, slot: map<nat, int>, max: nat)
    requires forall id :: id in ids ==> id in slot && 1 <= slot[id] <= max
    requires forall a, b :: a in ids && b in ids && slot[a] == slot[b] ==> a == b
    ensures |ids| <= max
  {
    if id :| id in ids && slot[id] == max {
      Pigeonhole(ids - {id}, slot, max - 1);
    } else if max > 0 {
      Pigeonhole(ids, slot, max - 1);
    } else {
      assert ids == {};
    }
  }

  lemma RecordsInOrder(log: seq<Incremented>, i: nat, j: nat)
    requires Ordered(log) && i < |log| && j < |log| && i != j
    ensures InOrder(log[i], log[j]) || InOrder(log[j], log[i])
    ensures log[i].key == log[j].key && log[i].born == log[j].born ==> log[i].count != log[j].count
    ensures log[i].key == log[j].key && log[i].born < log[j].born ==> InOrder(log[i], log[j])
  {
    if i < j { assert InOrder(log[i], log[j]); } else { assert InOrder(log[j], log[i]); }
  }

  /** Requests admitted in one life of a counter key have distinct counts, so at
      most `max - skip` of them have a count above `skip`. */
  lemma OneLife(s: System, k: Counter, ids: set<nat>, key: string, max: nat, born: int, skip: nat)
    requires SystemOk(s)
    requires forall id :: id in ids ==>
      Admitted(s, k, id, key, max) && CounterRecord(s, k, id).born == born && CounterRecord(s, k, id).count > skip
    ensures ids == {} || |ids| <= max - skip
  {
    var counts := map id | id in ids :: CounterRecord(s, k, id).count - skip;
    forall id | id in ids ensures 1 <= counts[id] <= max - skip {
      AdmittedRecord(s, k, id, key, max);
    }
    forall a, b | a in ids && b in ids && counts[a] == counts[b] ensures a == b {
      AdmittedRecord(s, k, a, key, max);
      AdmittedRecord(s, k, b, key, max);
      if a != b { RecordsInOrder(s.store.log, s.calls[a].hits[k], s.calls[b].hits[k]); }
    }
    if id :| id in ids {
      assert 1 <= counts[id] <= max - skip;
      Pigeonhole(ids, counts, max - skip);
    }
  }

  /** Three lives of one counter key cannot all have an INCR in the same minute. */
  lemma ThreeLivesSpanAMinute(st: Store, i: nat, j: nat, k: nat)
    requires StoreOk(st) && i < |st.log| && j < |st.log| && k < |st.log|
    requires st.log[i].key == st.log[j].key == st.log[k].key && IsCounterKey(st.log[i].key)
    requires st.log[i].born < st.log[j].born < st.log[k].born
    ensures st.log[k].at >= st.log[i].at + COUNTER_TTL
  {
    RecordsInOrder(st.log, i, j);
    RecordsInOrder(st.log, j, k);
    assert RecordOk(st, st.log[k]);
  }

  lemma OnlyTwoLives(s: System, k: Counter, key: string, max: nat, t: int, a: nat, b: nat, c: nat)
    requires SystemOk(s)
    requires a in AdmittedInMinute(s, k, key, max, t)
    requires b in AdmittedInMinute(s, k, key, max, t)
    requires c in AdmittedInMinute(s, k, key, max, t)
    ensures !(CounterRecord(s, k, a).born < CounterRecord(s, k, b).born < CounterRecord(s, k, c).born)
  {
    AdmittedRecord(s, k, a, key, max);
    AdmittedRecord(s, k, b, key, max);
    AdmittedRecord(s, k, c, key, max);
    if CounterRecord(s, k, a).born < CounterRecord(s, k, b).born < CounterRecord(s, k, c).born {
      ThreeLivesSpanAMinute(s.store, s.calls[a].hits[k], s.calls[b].hits[k], s.calls[c].hits[k]);
    }
  }

  lemma ThirdLifeIsOneOfTwo(s: System, k: Counter, key: string, max: nat, t: int, a: nat, b: nat, c: nat)
    requires SystemOk(s)
    requires a in AdmittedInMinute(s, k, key, max, t)
    requires b in AdmittedInMinute(s, k, key, max, t)
    requires c in AdmittedInMinute(s, k, key, max, t)
    requires CounterRecord(s, k, a).born != CounterRecord(s, k, b).born
    requires CounterRecord(s, k, a).born != CounterRecord(s, k, c).born
    ensures CounterRecord(s, k, b).born == CounterRecord(s, k, c).born
  {
    OnlyTwoLives(s, k, key, max, t, a, b, c);
    OnlyTwoLives(s, k, key, max, t, a, c, b);
    OnlyTwoLives(s, k, key, max, t, b, a, c);
    OnlyTwoLives(s, k, key, max, t, b, c, a);
    OnlyTwoLives(s, k, key, max, t, c, a, b);
    OnlyTwoLives(s, k, key, max, t, c, b, a);
  }

  /** A set on which a map takes at most two values falls into a part with the
      smaller and a part with the larger one. */
  lemma TwoFibres(ids: set<nat>, born: map<nat, int>) returns (smaller: set<nat>, larger: set<nat>)
    requires ids <= born.Keys
    requires forall a, b, c :: a in ids && b in ids && c in ids && born[a] != born[b] && born[a] != born[c] ==> born[b] == born[c]
    ensures smaller + larger == ids && |ids| == |smaller| + |larger|
    ensures forall a, b :: a in smaller && b in smaller ==> born[a] == born[b]
    ensures forall a, b :: a in larger && b in larger ==> born[a] == born[b]
    ensures forall a, b :: a in smaller && b in larger ==> born[a] < born[b]
  {
    smaller, larger := {}, {};
    if a :| a in ids {
      smaller := set id | id in ids && born[id] == born[a];
      larger := ids - smaller;
      assert ids == smaller + larger;
      if b :| b in larger && born[b] < born[a] {
        smaller, larger := larger, smaller;
      }
    }
  }

  ghost predicate SameLife(s: System, k: Counter, ids: set<nat>, key: string, max: nat, t: int) {
    && ids <= AdmittedInMinute(s, k, key, max, t)
    && forall a, b :: a in ids && b in ids ==> CounterRecord(s, k, a).born == CounterRecord(s, k, b).born
  }

  /** The requests admitted in a minute belong to an earlier and a later life. */
  lemma MinuteFibres(s: System, k: Counter, key: string, max: nat, t: int) returns (earlier: set<nat>, later: set<nat>)
    requires SystemOk(s)
    ensures SameLife(s, k, earlier, key, max, t) && SameLife(s, k, later, key, max, t)
    ensures |AdmittedInMinute(s, k, key, max, t)| == |earlier| + |later|
    ensures forall a, b :: a in earlier && b in later ==> CounterRecord(s, k, a).born < CounterRecord(s, k, b).born
  {
    var all := AdmittedInMinute(s, k, key, max, t);
    var born := map id | id in all :: CounterRecord(s, k, id).born;
    forall a, b, c | a in all && b in all && c in all && born[a] != born[b] && born[a] != born[c]
      ensures born[b] == born[c]
    {
      ThirdLifeIsOneOfTwo(s, k, key, max, t, a, b, c);
    }
    earlier, later := TwoFibres(all, born);
  }

  /** The bound in a state that satisfies the invariant. */
  lemma AtMostTwoLives(s: System, k: Counter, key: string, max: nat, t: int)
    requires SystemOk(s) && max >= 1
    ensures |AdmittedInMinute(s, k, key, max, t)| <= 2 * max - 1
  {
    var earlier, later := MinuteFibres(s, k, key, max, t);
    FibreIsOneLife(s, k, key, max, t, earlier);
    FibreIsOneLife(s, k, key, max, t, later);
    if b :| b in later {
      EarlierLifeLosesOne(s, k, key, max, t, earlier, b);
    }
  }

  lemma FibreIsOneLife(s: System, k: Counter, key: string, max: nat, t: int, ids: set<nat>)
    requires SystemOk(s) && SameLife(s, k, ids, key, max, t)
    ensures |ids| <= max
  {
    if a :| a in ids {
      forall id | id in ids ensures CounterRecord(s, k, id).count > 0 { AdmittedRecord(s, k, id, key, max); }
      OneLife(s, k, ids, key, max, CounterRecord(s, k, a).born, 0);
    }
  }

  /** If a later life also has an INCR in the minute, then the earlier life began
      before the minute, so the INCR that returned 1 is outside it. */
  lemma EarlierLifeLosesOne(s: System, k: Counter, key: string, max: nat, t: int, ids: set<nat>, later: nat)
    requires SystemOk(s) && SameLife(s, k, ids, key, max, t) && later in AdmittedInMinute(s, k, key, max, t)
    requires forall a :: a in ids ==> CounterRecord(s, k, a).born < CounterRecord(s, k, later).born
    ensures ids == {} || |ids| <= max - 1
  {
    if a :| a in ids {
      forall id | id in ids ensures CounterRecord(s, k, id).count > 1 {
        AdmittedRecord(s, k, id, key, max);
        AdmittedRecord(s, k, later, key, max);
        RecordsInOrder(s.store.log, s.calls[id].hits[k], s.calls[later].hits[k]);
      }
      OneLife(s, k, ids, key, max, CounterRecord(s, k, a).born, 1);
    }
  }

  /** Main result: every run, any number of requests, any interleaving. */
  lemma FewerThanTwiceTheLimit(now: int, events: seq<Event>, k: Counter, key: string, max: nat, t: int)
    requires max >= 1
    ensures SystemOk(Run(Init(now), events))
    ensures |AdmittedInMinute(Run(Init(now), events), k, key, max, t)| <= 2 * max - 1
  {
    RunKeepsSystem(Init(now), events);
    AtMostTwoLives(Run(Init(now), events), k, key, max, t);
  }

  /** No request that must be counted is admitted without a count within its limit. */
  lemma AdmittedMeansCounted(now: int, events: seq<Event>, k: Counter, id: nat)
    requires var s := Run(Init(now), events);
      id in s.calls && s.calls[id].pc == Done(true) && MustBeCounted(s.calls[id], k)
    ensures var s := Run(Init(now), events);
      exists i :: 0 <= i < |s.store.log| && s.store.log[i].client == id
                  && s.store.log[i].key == s.calls[id].req.Key(k)
                  && 1 <= s.store.log[i].count <= Limit(s.calls[id].req, k)
  {
    var s := Run(Init(now), events);
    RunKeepsSystem(Init(now), events);
    assert CallOk(s.store.log, id, s.calls[id]);
    assert RecordOk(s.store, s.store.log[s.calls[id].hits[k]]);
  }

  /** Why only some requests must be counted: while Redis cannot be reached, a
      limited request is admitted exactly if its path is not fail-closed, and
      nothing is counted. */
  lemma OutageVerdict(s: System, id: nat, r: Request)
    requires id !in s.calls && r.perMinute > 0 && r.route != 0
    ensures var lost := Act(id, NeverSent, 0);
      var s' := Step(Step(Step(Step(s, Arrive(id, r)), lost), lost), lost);
      s'.store == s.store && id in s'.calls && s'.calls[id].pc == Done(!r.failClosed)
  {
    var lost := Act(id, NeverSent, 0);
    var s2 := Step(Step(s, Arrive(id, r)), lost);
    assert s2.store == s.store && s2.calls[id].pc == if r.StrikesApply() then HitIncr(Global) else HitIncr(Path);
  }
}
