/**
 The rate limiter and IP block of one request, cut at every Redis command, and
 the system in which any number of requests on any number of gateways interleave
 their commands on one Redis server.
 */
module RateLimit {
  import opened Wrappers
  import opened Strings
  import opened RedisStore

  const COUNTER_TTL: int := 60_000

  // ---------- configuration and keys ----------

  datatype BlockConfig = BlockConfig(enabled: bool, threshold: int, windowSeconds: int,
                                     durationSeconds: int, whitelist: seq<string>)

  /** Non-positive settings fall back to the defaults. */
  function GetBlockConfig(raw: BlockConfig): BlockConfig {
    raw.(threshold := if raw.threshold <= 0 then 5 else raw.threshold,
         windowSeconds := if raw.windowSeconds <= 0 then 300 else raw.windowSeconds,
         durationSeconds := if raw.durationSeconds <= 0 then 1800 else raw.durationSeconds)
  }

  /** What one request brings: its own data and the configuration it read.
      `route` is the answer of getRouteLimit, `failClosed` that of isFailClosedPath. */
  datatype Request = Request(path: string, ip: string, subject: string,
                             perMinute: int, globalPerMinute: int, route: int,
                             failClosed: bool, rawBlock: BlockConfig)
  {
    function Block(): BlockConfig { GetBlockConfig(rawBlock) }

    predicate StrikesApply() {
      rawBlock.enabled && ip != "" && !exists w :: w in rawBlock.whitelist && TrimSpace(w) == ip
    }

    function GlobalLimit(): int { if globalPerMinute <= 0 then perMinute else globalPerMinute }

    /** The limit of the path counter; a negative route setting means "no match". */
    function PathLimit(): int { if route < 0 then perMinute else route }

    function Key(c: Counter): string {
      match c
      case Global => GlobalKey(RateAudience(path), subject)
      case Path => PathKey(subject, path)
      case Strike => BlockKey(RateAudience(path), ip)
    }
  }

  datatype Counter = Global | Path | Strike

  function RateAudience(path: string): string {
    if HasPrefix(path, "/api/manage") then "manage"
    else if HasPrefix(path, "/api/backend") then "backend"
    else "app"
  }

  function GlobalKey(audience: string, subject: string): string {
    "rate_limit:global:" + audience + ":" + subject
  }

  function PathKey(subject: string, path: string): string {
    "rate_limit:path:" + subject + ":" + path
  }

  function BlockKey(audience: string, ip: string): string {
    "rate_limit:block:" + audience + ":" + ip
  }

  predicate IsCounterKey(key: string) {
    HasPrefix(key, "rate_limit:global:") || HasPrefix(key, "rate_limit:path:")
  }

  predicate IsBlockKey(key: string) {
    HasPrefix(key, "rate_limit:block:")
  }

  lemma KeyKinds(r: Request, c: Counter)
    ensures c.Strike? ==> IsBlockKey(r.Key(c)) && !IsCounterKey(r.Key(c))
    ensures !c.Strike? ==> IsCounterKey(r.Key(c)) && !IsBlockKey(r.Key(c))
    ensures r.Key(Global) != r.Key(Path)
  {
    var k := r.Key(c);
    assert k[11] == (match c case Global => 'g' case Path => 'p' case Strike => 'b');
    assert r.Key(Global)[11] == 'g' && r.Key(Path)[11] == 'p';
  }

  // ---------- one request, command by command ----------

  /** Where a request stands; every state but Done is about to send a command. */
  datatype Pc =
    | CheckBlock
    | HitIncr(c: Counter)
    | HitExpire(c: Counter)
    | HitTtl(c: Counter, count: int)
    | HitRepair(c: Counter, count: int)
    | StrikeIncr
    | StrikeExpire
    | StrikeSet
    | Done(admitted: bool)

  function NextCommand(r: Request, pc: Pc): Command
    requires !pc.Done?
  {
    match pc
    case CheckBlock => Get(r.Key(Strike))
    case HitIncr(c) => Incr(r.Key(c))
    case HitExpire(c) => Expire(r.Key(c), COUNTER_TTL)
    case HitTtl(c, _) => Ttl(r.Key(c))
    case HitRepair(c, _) => Expire(r.Key(c), COUNTER_TTL)
    case StrikeIncr => Incr(r.Key(Strike))
    case StrikeExpire => Expire(r.Key(Strike), r.Block().windowSeconds * 1000)
    case StrikeSet => SetEx(r.Key(Strike), "BLOCKED", r.Block().durationSeconds * 1000)
  }

  predicate SaysBlocked(v: Value) {
    v.Text? && ToUpper(TrimSpace(v.s)) == "BLOCKED"
  }

  function Start(r: Request): Pc {
    if r.perMinute <= 0 then Done(true)
    else if r.StrikesApply() then CheckBlock
    else HitIncr(Global)
  }

  function StartPath(r: Request): Pc {
    if r.route == 0 then Done(true) else HitIncr(Path)
  }

  function StartStrike(r: Request): Pc {
    if r.StrikesApply() then StrikeIncr else Done(false)
  }

  /** hitRedisCounter returned an error. */
  function AfterError(r: Request, c: Counter): Pc {
    if c.Path? then Done(!r.failClosed) else StartPath(r)
  }

  /** hitRedisCounter returned a count. */
  function AfterCount(r: Request, c: Counter, count: int): Pc {
    if c.Path? then
      if count > r.PathLimit() then StartStrike(r) else Done(true)
    else
      if count > r.GlobalLimit() then StartStrike(r) else StartPath(r)
  }

  function Next(r: Request, pc: Pc, reply: Reply): Pc
    requires !pc.Done?
  {
    match pc
    case CheckBlock =>
      if reply.Found? && SaysBlocked(reply.value) then Done(false) else HitIncr(Global)
    case HitIncr(c) =>
      if !reply.Integer? then AfterError(r, c)
      else if reply.n == 1 then HitExpire(c)
      else HitTtl(c, reply.n)
    case HitExpire(c) =>
      if reply.Err? then AfterError(r, c) else HitTtl(c, 1)
    case HitTtl(c, count) =>
      if reply.Integer? && reply.n <= 0 then HitRepair(c, count) else AfterCount(r, c, count)
    case HitRepair(c, count) => AfterCount(r, c, count)
    case StrikeIncr =>
      if !reply.Integer? then Done(false)
      else if reply.n == 1 then StrikeExpire
      else if reply.n >= r.Block().threshold then StrikeSet
      else Done(false)
    case StrikeExpire =>
      if 1 >= r.Block().threshold then StrikeSet else Done(false)
    case StrikeSet => Done(false)
  }

  // ---------- all requests together ----------

  /** A request in flight or finished. `hits` points at the log record of each
      INCR whose reply the request got; `failed` holds the counters whose INCR, or
      on path and global counters first EXPIRE, returned an error. Both are auxiliary. */
  datatype Call = Call(req: Request, pc: Pc, hits: map<Counter, nat>, failed: set<Counter>)

  datatype System = System(store: Store, calls: map<nat, Call>)

  datatype Event =
    | Arrive(id: nat, req: Request)
    | Act(id: nat, fault: Fault, round: nat)
    | Tick(ms: nat)

  function CounterOf(pc: Pc): Counter {
    if pc.HitIncr? || pc.HitExpire? then pc.c else Strike
  }

  function StepCall(s: System, id: nat, fault: Fault, round: nat): System
    requires id in s.calls && !s.calls[id].pc.Done?
  {
    var call := s.calls[id];
    var (store, reply) := Issue(s.store, NextCommand(call.req, call.pc), id, fault, round);
    var hits := if (call.pc.HitIncr? || call.pc.StrikeIncr?) && reply.Integer?
                then call.hits[CounterOf(call.pc) := |s.store.log|] else call.hits;
    var failed := if (call.pc.HitIncr? || call.pc.HitExpire? || call.pc.StrikeIncr?) && reply.Err?
                  then call.failed + {CounterOf(call.pc)} else call.failed;
    System(store, s.calls[id := Call(call.req, Next(call.req, call.pc, reply), hits, failed)])
  }

  /** One step of the system. An event that does not apply changes nothing. */
  function Step(s: System, ev: Event): System {
    match ev
    case Arrive(id, r) =>
      if id in s.calls then s else s.(calls := s.calls[id := Call(r, Start(r), map[], {})])
    case Act(id, fault, round) =>
      if id in s.calls && !s.calls[id].pc.Done? then StepCall(s, id, fault, round) else s
    case Tick(ms) => s.(store := s.store.(now := s.store.now + ms))
  }

  function Run(s: System, events: seq<Event>): System {
    if events == [] then s else Step(Run(s, events[..|events| - 1]), events[|events| - 1])
  }

  lemma {:induction false} RunTwice(s: System, first: seq<Event>, second: seq<Event>)
    ensures Run(s, first + second) == Run(Run(s, first), second)
  {
    if second == [] {
      assert first + second == first;
    } else {
      assert (first + second)[..|first + second| - 1] == first + second[..|second| - 1];
      RunTwice(s, first, second[..|second| - 1]);
    }
  }

  lemma RunOne(s: System, ev: Event)
    ensures Run(s, [ev]) == Step(s, ev)
  {
    assert [ev][..0] == [];
    assert Run(s, []) == s;
  }

  function Init(now: int): System {
    System(Store(now, map[], []), map[])
  }
}
