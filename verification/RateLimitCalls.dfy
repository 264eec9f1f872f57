/**
 The rate limiter as the gateway's own code runs it: procedures that send their
 commands to Redis one after the other and keep their progress in local
 variables. Each is proved to take exactly the steps of the state machine of
 module RateLimit, whatever the network does to each command.
 */
module RateLimitCalls {
  import opened Wrappers
  import opened Strings
  import opened RedisStore
  import opened RateLimit
  import AudienceIsolation

  /** What the network does to the command sent from each control state. */
  type Answers = Pc -> (Fault, nat)

  function Rank(pc: Pc): nat {
    match pc
    case CheckBlock => 12
    case HitIncr(c) => if c.Path? then 7 else 11
    case HitExpire(c) => if c.Path? then 6 else 10
    case HitTtl(c, _) => if c.Path? then 5 else 9
    case HitRepair(c, _) => if c.Path? then 4 else 8
    case StrikeIncr => 3
    case StrikeExpire => 2
    case StrikeSet => 1
    case Done(_) => 0
  }

  /** The machine of one request run to its end with no other request in between. */
  function Solo(st: Store, r: Request, pc: Pc, id: nat, answers: Answers): (Store, bool)
    decreases Rank(pc)
  {
    if pc.Done? then (st, pc.admitted)
    else
      var (st', reply) := Issue(st, NextCommand(r, pc), id, answers(pc).0, answers(pc).1);
      Solo(st', r, Next(r, pc, reply), id, answers)
  }

  /** The commands of request `id` alone, in the system of all requests. */
  predicate OnlyActs(events: seq<Event>, id: nat) {
    forall i :: 0 <= i < |events| ==> events[i].Act? && events[i].id == id
  }

  /** The system after request `id` has ended with the given store and verdict, all
      others untouched. */
  predicate EndsWith(s: System, s': System, id: nat, result: (Store, bool)) {
    && id in s'.calls && s'.store == result.0 && s'.calls[id].pc == Done(result.1)
    && s'.calls - {id} == s.calls - {id}
  }

  /** Solo is a run of the system in which only this request moves. */
  lemma {:induction false} SoloIsRun(s: System, id: nat, answers: Answers) returns (events: seq<Event>)
    requires id in s.calls
    ensures OnlyActs(events, id)
    ensures EndsWith(s, Run(s, events), id, Solo(s.store, s.calls[id].req, s.calls[id].pc, id, answers))
    decreases Rank(s.calls[id].pc)
  {
    var call := s.calls[id];
    if call.pc.Done? {
      events := [];
    } else {
      var ev := Act(id, answers(call.pc).0, answers(call.pc).1);
      var s1 := Step(s, ev);
      assert s1.calls - {id} == s.calls - {id};
      var rest := SoloIsRun(s1, id, answers);
      events := [ev] + rest;
      RunTwice(s, [ev], rest);
      RunOne(s, ev);
    }
  }

  /** A request that arrives and meets nobody ends as HandleRequest does. */
  lemma UndisturbedIsSolo(s: System, id: nat, r: Request, answers: Answers) returns (events: seq<Event>)
    requires id !in s.calls
    ensures OnlyActs(events, id)
    ensures EndsWith(s, Run(Step(s, Arrive(id, r)), events), id, Solo(s.store, r, Start(r), id, answers))
  {
    var s1 := Step(s, Arrive(id, r));
    events := SoloIsRun(s1, id, answers);
    assert s1.calls - {id} == s.calls - {id};
  }

  predicate AllFine(answers: Answers, c: Counter, count: int) {
    answers(HitIncr(c)).0.Fine? && answers(HitExpire(c)).0.Fine?
    && answers(HitTtl(c, count)).0.Fine? && answers(HitRepair(c, count)).0.Fine?
  }

  predicate Countable(st: Store, key: string) {
    Live(st, key) ==> st.keys[key].value.Num? && 1 <= st.keys[key].value.n < MAX_INT64
  }

  /** What a counter call that meets no failure does: it hands out the next count
      and leaves the counter with an expiry. */
  predicate CountedOnce(st: Store, st': Store, key: string, count: int)
    requires Countable(st, key)
  {
    && count == (if Live(st, key) then st.keys[key].value.n + 1 else 1)
    && key in st'.keys && st'.keys[key].value == Num(count) && st'.keys[key].expiry.Some?
    && (count == 1 ==> st'.keys[key].expiry.value == st'.now + COUNTER_TTL)
  }

  method HitRedisCounter(redis: Redis, r: Request, c: Counter, key: string, id: nat, answers: Answers)
    returns (count: int, failed: bool)
    requires !c.Strike? && key == r.Key(c)
    modifies redis
    ensures Solo(old(redis.store), r, HitIncr(c), id, answers)
         == Solo(redis.store, r, if failed then AfterError(r, c) else AfterCount(r, c, count), id, answers)
    ensures Countable(old(redis.store), key) && AllFine(answers, c, count) ==>
      !failed && CountedOnce(old(redis.store), redis.store, key, count)
  {
    count, failed := 0, false;
    var reply := redis.Do(Incr(key), id, answers(HitIncr(c)).0, answers(HitIncr(c)).1);
    if !reply.Integer? {
      return 0, true;
    }
    count := reply.n;
    if count == 1 {
      reply := redis.Do(Expire(key, COUNTER_TTL), id, answers(HitExpire(c)).0, answers(HitExpire(c)).1);
      if reply.Err? {
        return count, true;
      }
    }
    failed := TtlAndRepair(redis, r, c, key, count, id, answers);
  }

  /** The second half of a counter call: a counter found without a remaining time
      gets its expiry back. */
  method TtlAndRepair(redis: Redis, r: Request, c: Counter, key: string, count: int, id: nat, answers: Answers)
    returns (failed: bool)
    requires !c.Strike? && key == r.Key(c)
    modifies redis
    ensures !failed
    ensures Solo(old(redis.store), r, HitTtl(c, count), id, answers)
         == Solo(redis.store, r, AfterCount(r, c, count), id, answers)
    ensures redis.store == old(redis.store) || (Live(old(redis.store), key) &&
      redis.store == old(redis.store).(keys := old(redis.store).keys[key :=
        old(redis.store).keys[key].(expiry := Some(redis.store.now + COUNTER_TTL))]))
    ensures Live(old(redis.store), key) && answers(HitTtl(c, count)).0.Fine? && answers(HitRepair(c, count)).0.Fine? ==>
      key in redis.store.keys && redis.store.keys[key].expiry.Some?
  {
    var asking, repairing := HitTtl(c, count), HitRepair(c, count);
    var reply := redis.Do(Ttl(key), id, answers(asking).0, answers(asking).1);
    if reply.Integer? && reply.n <= 0 {
      reply := redis.Do(Expire(key, COUNTER_TTL), id, answers(repairing).0, answers(repairing).1);
    }
    failed := false;
  }

  method IsIPBlocked(redis: Redis, r: Request, id: nat, answers: Answers) returns (blocked: bool)
    modifies redis
    ensures Solo(old(redis.store), r, if r.StrikesApply() then CheckBlock else HitIncr(Global), id, answers)
         == Solo(redis.store, r, if blocked then Done(false) else HitIncr(Global), id, answers)
    ensures redis.store == old(redis.store)
    ensures blocked <==> r.StrikesApply() && answers(CheckBlock).0.Fine? && Live(redis.store, r.Key(Strike))
                         && SaysBlocked(redis.store.keys[r.Key(Strike)].value)
  {
    var applies := IsSubjectToStrikes(r);
    if !applies {
      return false;
    }
    var reply := redis.Do(Get(r.Key(Strike)), id, answers(CheckBlock).0, answers(CheckBlock).1);
    blocked := reply.Found? && SaysBlocked(reply.value);
  }

  method RecordStrike(redis: Redis, r: Request, id: nat, answers: Answers)
    modifies redis
    ensures Solo(old(redis.store), r, StartStrike(r), id, answers) == (redis.store, false)
  {
    var applies := IsSubjectToStrikes(r);
    if !applies {
      return;
    }
    var block := r.Block();
    var key := r.Key(Strike);
    var reply := redis.Do(Incr(key), id, answers(StrikeIncr).0, answers(StrikeIncr).1);
    if !reply.Integer? {
      return;
    }
    var count := reply.n;
    if count == 1 {
      reply := redis.Do(Expire(key, block.windowSeconds * 1000), id, answers(StrikeExpire).0, answers(StrikeExpire).1);
    }
    if count >= block.threshold {
      reply := redis.Do(SetEx(key, "BLOCKED", block.durationSeconds * 1000), id, answers(StrikeSet).0, answers(StrikeSet).1);
    }
  }

  /** The whole middleware: the verdict and the final store are those of the machine. */
  method HandleRequest(redis: Redis, r: Request, id: nat, answers: Answers) returns (admitted: bool)
    modifies redis
    ensures Solo(old(redis.store), r, Start(r), id, answers) == (redis.store, admitted)
  {
    if r.perMinute <= 0 {
      return true;
    }
    var blocked := IsIPBlocked(redis, r, id, answers);
    if blocked {
      return false;
    }
    var globalLimit := if r.globalPerMinute <= 0 then r.perMinute else r.globalPerMinute;
    var count, failed := HitRedisCounter(redis, r, Global, r.Key(Global), id, answers);
    if !failed && count > globalLimit {
      RecordStrike(redis, r, id, answers);
      return false;
    }
    var limit := r.perMinute;
    if r.route >= 0 {
      if r.route == 0 {
        return true;
      }
      limit := r.route;
    }
    count, failed := HitRedisCounter(redis, r, Path, r.Key(Path), id, answers);
    if failed {
      return !r.failClosed;
    }
    if count > limit {
      RecordStrike(redis, r, id, answers);
      return false;
    }
    return true;
  }

  /** An enabled block applies to a known address that is not on the whitelist. */
  method IsSubjectToStrikes(r: Request) returns (applies: bool)
    ensures applies == r.StrikesApply()
  {
    if !r.rawBlock.enabled || r.ip == "" {
      return false;
    }
    var listed := IsWhitelistedIP(r.ip, r.rawBlock.whitelist);
    return !listed;
  }

  method IsWhitelistedIP(ip: string, whitelist: seq<string>) returns (listed: bool)
    ensures listed <==> exists w :: w in whitelist && TrimSpace(w) == ip
  {
    for i := 0 to |whitelist|
      invariant forall j :: 0 <= j < i ==> TrimSpace(whitelist[j]) != ip
    {
      if TrimSpace(whitelist[i]) == ip {
        return true;
      }
    }
    return false;
  }

  const FAIL_CLOSED_KEYWORDS: seq<string> := ["withdraw", "deposit", "wash-code-rebate", "transfer"]

  /** Money paths: those that contain one of the configured keywords, empty ones
      aside, or of the default keywords if none is configured. */
  method IsFailClosedPath(path: string, configured: seq<string>) returns (closed: bool)
    ensures configured != [] ==> (closed <==> exists kw :: kw in configured && kw != "" && Contains(path, kw))
    ensures configured == [] ==>
      (closed <==> Contains(path, "withdraw") || Contains(path, "deposit")
                   || Contains(path, "wash-code-rebate") || Contains(path, "transfer"))
  {
    var keywords := if configured == [] then FAIL_CLOSED_KEYWORDS else configured;
    closed := HasKeyword(path, keywords);
    if configured == [] {
      var k := FAIL_CLOSED_KEYWORDS;
      assert k[0] in k && k[1] in k && k[2] in k && k[3] in k;
    }
  }

  method HasKeyword(path: string, keywords: seq<string>) returns (found: bool)
    ensures found <==> exists kw :: kw in keywords && kw != "" && Contains(path, kw)
  {
    for i := 0 to |keywords|
      invariant forall j :: 0 <= j < i ==> keywords[j] == "" || !Contains(path, keywords[j])
    {
      if keywords[i] != "" && Contains(path, keywords[i]) {
        return true;
      }
    }
    return false;
  }

  // ---------- route limits ----------

  datatype RouteLimit = RouteLimit(exactPath: string, pathPrefix: string, requestsPerMinute: int)

  predicate ExactMatch(route: RouteLimit, path: string) {
    route.exactPath != "" && route.exactPath == path
  }

  predicate PrefixMatch(route: RouteLimit, path: string) {
    route.pathPrefix != "" && HasPrefix(path, route.pathPrefix)
  }

  predicate AnyMatch(route: RouteLimit, path: string) {
    ExactMatch(route, path) || PrefixMatch(route, path)
  }

  /** Route i is the first exact match or, if there is none, the first of the
      longest matching prefixes. */
  predicate IsChosen(routes: seq<RouteLimit>, path: string, i: int) {
    && 0 <= i < |routes|
    && if ExactMatch(routes[i], path) then
         forall j :: 0 <= j < i ==> !ExactMatch(routes[j], path)
       else
         && PrefixMatch(routes[i], path)
         && (forall j :: 0 <= j < |routes| ==> !ExactMatch(routes[j], path))
         && IsLongestPrefix(routes, path, i, |routes|)
  }

  /** Among the first n routes no matching prefix is longer than that of route i,
      and none before it is as long. */
  predicate IsLongestPrefix(routes: seq<RouteLimit>, path: string, i: nat, n: nat)
    requires i < |routes| && n <= |routes|
  {
    forall j :: 0 <= j < n && PrefixMatch(routes[j], path) ==>
      |routes[j].pathPrefix| <= |routes[i].pathPrefix| && (j < i ==> |routes[j].pathPrefix| < |routes[i].pathPrefix|)
  }

  /** The limit for this path, field by field: the first route with exactly this path
      decides; without one, the first of those with the longest prefix of the path;
      without any, -1. */
  ghost predicate IsRouteLimit(routes: seq<RouteLimit>, path: string, limit: int) {
    && (forall i :: 0 <= i < |routes| && routes[i].exactPath == path != ""
                    && (forall j :: 0 <= j < i ==> routes[j].exactPath != path) ==>
          limit == routes[i].requestsPerMinute)
    && ((path == "" || forall j :: 0 <= j < |routes| ==> routes[j].exactPath != path) ==>
          && (forall i :: 0 <= i < |routes| && routes[i].pathPrefix != "" && HasPrefix(path, routes[i].pathPrefix)
                          && (forall j :: 0 <= j < |routes| && HasPrefix(path, routes[j].pathPrefix) ==>
                                |routes[j].pathPrefix| <= |routes[i].pathPrefix|
                                && (j < i ==> |routes[j].pathPrefix| < |routes[i].pathPrefix|)) ==>
                limit == routes[i].requestsPerMinute)
          && ((forall j :: 0 <= j < |routes| ==> routes[j].pathPrefix == "" || !HasPrefix(path, routes[j].pathPrefix)) ==>
                limit == -1))
  }

  lemma ChosenIsLimit(routes: seq<RouteLimit>, path: string, i: int)
    requires IsChosen(routes, path, i)
    ensures IsRouteLimit(routes, path, routes[i].requestsPerMinute)
  {
    forall j | 0 <= j < |routes| && routes[j].exactPath == path != ""
               && (forall k :: 0 <= k < j ==> routes[k].exactPath != path)
      ensures j == i
    {
      assert ExactMatch(routes[j], path);
    }
    forall j | 0 <= j < |routes| && routes[j].pathPrefix != "" && HasPrefix(path, routes[j].pathPrefix)
               && (path == "" || forall k :: 0 <= k < |routes| ==> routes[k].exactPath != path)
               && (forall k :: 0 <= k < |routes| && HasPrefix(path, routes[k].pathPrefix) ==>
                     |routes[k].pathPrefix| <= |routes[j].pathPrefix|
                     && (k < j ==> |routes[k].pathPrefix| < |routes[j].pathPrefix|))
      ensures j == i
    {
      assert PrefixMatch(routes[j], path) && PrefixMatch(routes[i], path);
    }
  }

  method GetRouteLimit(routes: seq<RouteLimit>, path: string) returns (limit: int)
    ensures IsRouteLimit(routes, path, limit)
    ensures (exists r :: r in routes && AnyMatch(r, path)) ==>
      exists i :: IsChosen(routes, path, i) && limit == routes[i].requestsPerMinute
    ensures (forall r :: r in routes ==> !AnyMatch(r, path)) ==> limit == -1
  {
    for i := 0 to |routes|
      invariant forall j :: 0 <= j < i ==> !ExactMatch(routes[j], path)
    {
      if ExactMatch(routes[i], path) {
        assert IsChosen(routes, path, i) && AnyMatch(routes[i], path);
        ChosenIsLimit(routes, path, i);
        return routes[i].requestsPerMinute;
      }
    }
    var bestLen, bestLimit := -1, -1;
    ghost var chosen := -1;
    for i := 0 to |routes|
      invariant -1 <= chosen < i && (chosen == -1 <==> bestLen == -1)
      invariant bestLimit == if chosen == -1 then -1 else routes[chosen].requestsPerMinute
      invariant chosen == -1 ==> forall j :: 0 <= j < i ==> !PrefixMatch(routes[j], path)
      invariant chosen >= 0 ==> PrefixMatch(routes[chosen], path) && bestLen == |routes[chosen].pathPrefix|
      invariant chosen >= 0 ==> IsLongestPrefix(routes, path, chosen, i)
    {
      if PrefixMatch(routes[i], path) {
        if |routes[i].pathPrefix| > bestLen {
          bestLen, bestLimit, chosen := |routes[i].pathPrefix|, routes[i].requestsPerMinute, i;
        }
      }
    }
    assert chosen >= 0 ==> IsChosen(routes, path, chosen) && AnyMatch(routes[chosen], path);
    if chosen >= 0 { ChosenIsLimit(routes, path, chosen); }
    limit := bestLimit;
  }

  // ---------- from the configuration to the verdict ----------

  datatype Settings = Settings(perMinute: int, globalPerMinute: int, routes: seq<RouteLimit>,
                               failClosedKeywords: seq<string>, block: BlockConfig)

  /** The middleware as it is called: `r` is the request it sees, read from the headers
      and the configuration. */
  method RateLimitMiddleware(redis: Redis, path: string, ip: string, userId: int, adminId: int, cfg: Settings,
                             id: nat, answers: Answers)
    returns (admitted: bool, ghost r: Request)
    modifies redis
    ensures Solo(old(redis.store), r, Start(r), id, answers) == (redis.store, admitted)
    ensures r.path == path && r.ip == ip && r.subject == AudienceIsolation.Subject(userId, adminId, ip)
    ensures r.perMinute == cfg.perMinute && r.globalPerMinute == cfg.globalPerMinute && r.rawBlock == cfg.block
    ensures IsRouteLimit(cfg.routes, path, r.route)
    ensures cfg.failClosedKeywords != [] ==>
      (r.failClosed <==> exists kw :: kw in cfg.failClosedKeywords && kw != "" && Contains(path, kw))
    ensures cfg.failClosedKeywords == [] ==>
      (r.failClosed <==> Contains(path, "withdraw") || Contains(path, "deposit")
                         || Contains(path, "wash-code-rebate") || Contains(path, "transfer"))
  {
    var subject := AudienceIsolation.Subject(userId, adminId, ip);
    var route := GetRouteLimit(cfg.routes, path);
    var failClosed := IsFailClosedPath(path, cfg.failClosedKeywords);
    var request := Request(path, ip, subject, cfg.perMinute, cfg.globalPerMinute, route, failClosed, cfg.block);
    r := request;
    admitted := HandleRequest(redis, request, id, answers);
  }
}
