/**
 Who is admitted, rejected and struck, read off the settings themselves: the verdict
 of a finished request is a function of its configuration, of the counts it got and
 of the counters that failed.
 */
module Verdicts {
  import opened Wrappers
  import opened Strings
  import opened RedisStore
  import opened RateLimit
  import opened CounterLives
  import opened MinuteBound
  import opened BlockDuration
  import StrikeBlock
  import BlockSettles
  import CounterExpiry

  // ---------- the settings ----------

  /** The path counter's limit is the matched route's, if a route matches. */
  predicate OverPathLimit(r: Request, count: int) {
    if r.route > 0 then count > r.route else r.route < 0 && count > r.perMinute
  }

  predicate OverGlobalLimit(r: Request, count: int) {
    if r.globalPerMinute > 0 then count > r.globalPerMinute else count > r.perMinute
  }

  /** Blocking is on, the address is known, and no whitelist entry trims to it. */
  predicate MayBeBlocked(r: Request) {
    r.rawBlock.enabled && r.ip != "" && forall w :: w in r.rawBlock.whitelist ==> TrimSpace(w) != r.ip
  }

  // ---------- what a request has seen so far ----------

  predicate Counted(log: seq<Incremented>, call: Call, k: Counter) {
    k in call.hits && call.hits[k] < |log| && k !in call.failed
  }

  predicate Untried(call: Call, k: Counter) {
    k !in call.hits && k !in call.failed
  }

  predicate GlobalExcess(log: seq<Incremented>, call: Call) {
    Counted(log, call, Global) && OverGlobalLimit(call.req, log[call.hits[Global]].count)
  }

  predicate PathExcess(log: seq<Incremented>, call: Call) {
    Counted(log, call, Path) && OverPathLimit(call.req, log[call.hits[Path]].count)
  }

  /** The global counter was tried and did not stop the request: it failed, or its
      count is within the limit. */
  predicate PastGlobal(log: seq<Incremented>, call: Call) {
    !Untried(call, Global) && !GlobalExcess(log, call)
  }

  /** The verdict that the settings, counts and failures call for. */
  predicate Deserved(log: seq<Incremented>, call: Call) {
    || call.req.perMinute <= 0
    || (PastGlobal(log, call)
        && (call.req.route == 0
            || (if Path in call.failed then !call.req.failClosed else Counted(log, call, Path) && !PathExcess(log, call))))
  }

  predicate Excess(log: seq<Incremented>, call: Call) {
    GlobalExcess(log, call) || PathExcess(log, call)
  }

  /** What holds of a request wherever it stands. */
  predicate Sensible(log: seq<Incremented>, call: Call) {
    var r := call.req;
    && (call.pc.Done? || r.perMinute > 0)
    && (forall k :: k in call.hits ==> call.hits[k] < |log|)
    && (!Untried(call, Path) ==> PastGlobal(log, call) && r.route != 0)
    && match call.pc
       case CheckBlock => MayBeBlocked(r) && call.hits == map[] && call.failed == {}
       case HitIncr(k) => !k.Strike? && Before(log, call, k) && Untried(call, k)
       case HitExpire(k) => !k.Strike? && Before(log, call, k) && Counted(log, call, k) && log[call.hits[k]].count == 1
       case HitTtl(k, n) => !k.Strike? && Before(log, call, k) && Counted(log, call, k) && log[call.hits[k]].count == n
       case HitRepair(k, n) => !k.Strike? && Before(log, call, k) && Counted(log, call, k) && log[call.hits[k]].count == n
       case StrikeIncr => Striking(log, call) && Untried(call, Strike)
       case StrikeExpire => Striking(log, call) && !Untried(call, Strike)
       case StrikeSet => Striking(log, call) && !Untried(call, Strike)
       case Done(admitted) =>
         && (admitted <==> Deserved(log, call))
         && (!Untried(call, Strike) <==> MayBeBlocked(r) && Excess(log, call))
         && (!admitted && Untried(call, Global) ==> MayBeBlocked(r) && call.hits == map[] && call.failed == {})
         && (r.perMinute <= 0 ==> call.hits == map[] && call.failed == {})
  }

  predicate Striking(log: seq<Incremented>, call: Call) {
    MayBeBlocked(call.req) && Excess(log, call) && !Deserved(log, call) && !Untried(call, Global)
  }

  /** A request on its way through counter k has left the earlier counter behind and
      has not tried what comes after. */
  predicate Before(log: seq<Incremented>, call: Call, k: Counter) {
    Untried(call, Strike) && (if k.Path? then PastGlobal(log, call) && call.req.route != 0 else Untried(call, Path))
  }

  ghost predicate AllSensible(s: System) {
    forall id :: id in s.calls ==> Sensible(s.store.log, s.calls[id])
  }

  // ---------- it stays so ----------

  lemma LongerLogKeepsSense(log: seq<Incremented>, log': seq<Incremented>, call: Call)
    requires Sensible(log, call) && log <= log'
    ensures Sensible(log', call)
  {
    assert forall i :: 0 <= i < |log| ==> log'[i] == log[i];
  }

  /** One reply: `call'` differs from `call` as `StepCall` says. */
  predicate Replied(log: seq<Incremented>, call: Call, call': Call, reply: Reply)
    requires !call.pc.Done?
  {
    && call'.req == call.req && call'.pc == Next(call.req, call.pc, reply)
    && (if (call.pc.HitIncr? || call.pc.StrikeIncr?) && reply.Integer?
        then log != [] && log[|log| - 1].count == reply.n && call'.hits == call.hits[CounterOf(call.pc) := |log| - 1]
        else call'.hits == call.hits)
    && call'.failed == (if (call.pc.HitIncr? || call.pc.HitExpire? || call.pc.StrikeIncr?) && reply.Err?
                        then call.failed + {CounterOf(call.pc)} else call.failed)
    && (call.pc.HitIncr? || call.pc.StrikeIncr? ==> reply.Integer? || reply.Err?)
  }

  lemma ReplyKeepsSense(log: seq<Incremented>, call: Call, call': Call, reply: Reply)
    requires !call.pc.Done? && Sensible(log, call) && Replied(log, call, call', reply)
    requires (call.pc.HitIncr? || call.pc.StrikeIncr?) && reply.Integer? ==> forall k :: k in call.hits ==> call.hits[k] < |log| - 1
    ensures Sensible(log, call')
  {
    match call.pc
    case CheckBlock =>
    case HitIncr(k) =>
    case HitExpire(k) =>
    case HitTtl(k, n) =>
    case HitRepair(k, n) =>
    case StrikeIncr =>
    case StrikeExpire =>
    case StrikeSet =>
  }

  lemma StepReplies(s: System, id: nat, fault: Fault, round: nat)
    requires id in s.calls && !s.calls[id].pc.Done?
    ensures var s', reply := StepCall(s, id, fault, round),
                             Issue(s.store, NextCommand(s.calls[id].req, s.calls[id].pc), id, fault, round).1;
      && Replied(s'.store.log, s.calls[id], s'.calls[id], reply) && s.store.log <= s'.store.log
      && (((s.calls[id].pc.HitIncr? || s.calls[id].pc.StrikeIncr?) && reply.Integer?) ==> |s'.store.log| == |s.store.log| + 1)
  {
    LogGrows(s.store, NextCommand(s.calls[id].req, s.calls[id].pc), id, fault, round);
  }

  lemma StepKeepsSense(s: System, id: nat, fault: Fault, round: nat)
    requires AllSensible(s) && id in s.calls && !s.calls[id].pc.Done?
    ensures AllSensible(StepCall(s, id, fault, round))
  {
    var s' := StepCall(s, id, fault, round);
    var reply := Issue(s.store, NextCommand(s.calls[id].req, s.calls[id].pc), id, fault, round).1;
    StepReplies(s, id, fault, round);
    LongerLogKeepsSense(s.store.log, s'.store.log, s.calls[id]);
    ReplyKeepsSense(s'.store.log, s.calls[id], s'.calls[id], reply);
    forall other | other in s'.calls ensures Sensible(s'.store.log, s'.calls[other]) {
      if other != id { LongerLogKeepsSense(s.store.log, s'.store.log, s.calls[other]); }
    }
  }

  lemma ArrivalMakesSense(log: seq<Incremented>, r: Request)
    ensures Sensible(log, Call(r, Start(r), map[], {}))
  {}

  lemma {:induction false} RunKeepsSense(now: int, events: seq<Event>)
    ensures AllSensible(Run(Init(now), events))
  {
    if events != [] {
      var s, ev := Run(Init(now), events[..|events| - 1]), events[|events| - 1];
      RunKeepsSense(now, events[..|events| - 1]);
      match ev
      case Act(id, fault, round) =>
        if id in s.calls && !s.calls[id].pc.Done? { StepKeepsSense(s, id, fault, round); }
      case Arrive(id, r) => ArrivalMakesSense(s.store.log, r);
      case Tick(_) =>
    }
  }

  // ---------- results ----------

  /** Main result: in every run, a finished request was admitted if and only if no
      limit applies, or it got past the global limit and its route is exempt, its
      path counter failed on a path that is not fail-closed, or its path count is
      within the route's limit or, without one, the general limit. It struck if and
      only if a count was over its limit and its address may be blocked. */
  lemma VerdictIff(now: int, events: seq<Event>, id: nat)
    requires var s := Run(Init(now), events); id in s.calls && s.calls[id].pc.Done?
    ensures var s := Run(Init(now), events);
      && (s.calls[id].pc.admitted <==> Deserved(s.store.log, s.calls[id]))
      && (!Untried(s.calls[id], Strike) <==> MayBeBlocked(s.calls[id].req) && Excess(s.store.log, s.calls[id]))
  {
    RunKeepsSense(now, events);
  }

  /** In numbers: a path count decides by the route's limit or, if no route matches,
      by the general one; a route with the limit 0 is never counted. */
  lemma PathLimitDecides(now: int, events: seq<Event>, id: nat)
    requires var s := Run(Init(now), events); id in s.calls && s.calls[id].pc.Done?
    ensures var s := Run(Init(now), events);
      var log, call := s.store.log, s.calls[id];
      var r := call.req;
      && (Counted(log, call, Path) ==>
            var n := log[call.hits[Path]].count;
            r.route != 0 && (call.pc.admitted <==> n <= (if r.route > 0 then r.route else r.perMinute)))
      && (r.route == 0 ==> Untried(call, Path))
  {
    RunKeepsSense(now, events);
  }

  /** A global count above its limit rejects before any path count. */
  lemma GlobalLimitDecides(now: int, events: seq<Event>, id: nat)
    requires var s := Run(Init(now), events); id in s.calls && s.calls[id].pc.Done?
    ensures var s := Run(Init(now), events);
      var log, call := s.store.log, s.calls[id];
      var r := call.req;
      Counted(log, call, Global) ==>
        var n := log[call.hits[Global]].count;
        n > (if r.globalPerMinute > 0 then r.globalPerMinute else r.perMinute) ==>
          !call.pc.admitted && Untried(call, Path)
  {
    RunKeepsSense(now, events);
  }

  /** A request that was rejected without having been counted read a block; it may be
      blocked, and has sent nothing else. */
  lemma UncountedRejectionIsBlock(now: int, events: seq<Event>, id: nat)
    requires var s := Run(Init(now), events);
      id in s.calls && s.calls[id].pc == Done(false) && Untried(s.calls[id], Global)
    ensures var call := Run(Init(now), events).calls[id];
      MayBeBlocked(call.req) && call.hits == map[] && call.failed == {}
  {
    RunKeepsSense(now, events);
  }

  /** Main result: while a key reads BLOCKED, the requests that its address makes to
      its part of the API are rejected, and none of them is counted. */
  lemma BlockedIsRefused(s: System, id: nat, r: Request, round: nat)
    requires id !in s.calls && r.perMinute > 0 && MayBeBlocked(r) && Blocked(s.store, r.Key(Strike))
    ensures var s' := Step(Step(s, Arrive(id, r)), Act(id, Fine, round));
      s'.store == s.store && id in s'.calls && s'.calls[id].pc == Done(false)
  {
    assert r.StrikesApply();
  }

  /** A stored value reads BLOCKED in any case and with any blanks around it; a count
      never does. */
  lemma BlockedInAnyForm(before: string, word: string, after: string, n: int)
    requires ToUpper(word) == "BLOCKED" && (forall c :: c in before + after ==> IsSpace(c))
    ensures SaysBlocked(Text(before + word + after)) && !SaysBlocked(Num(n))
  {
    assert UpperChar(word[0]) == ToUpper(word)[0] == 'B' && UpperChar(word[6]) == ToUpper(word)[6] == 'D';
    TrimSpaceIs(before, word, after);
  }

  /** So once the block is set, every request of its address that arrives before it
      can end is rejected, whatever happens in between. */
  lemma BlockRefuses(s: System, window: int, duration: int, events: seq<Event>, id: nat, r: Request, round: nat)
    requires JustSet(s, r.Key(Strike), window, duration) && EventsConfigured(events, r.Key(Strike), window, duration)
    requires var s1 := Run(s, events);
      s1.store.now < s.store.now + 1000 * (if window < duration then window else duration) && id !in s1.calls
    requires r.perMinute > 0 && MayBeBlocked(r)
    ensures var s' := Step(Step(Run(s, events), Arrive(id, r)), Act(id, Fine, round));
      id in s'.calls && s'.calls[id].pc == Done(false)
  {
    BlockLastsWindowOrDuration(s, r.Key(Strike), window, duration);
    BlockedIsRefused(Run(s, events), id, r, round);
  }

  // ---------- the block settings ----------

  /** Main result, in the settings' own terms: the SET of BLOCKED follows strikes
      counted 1, 2, ... up to the configured threshold, or to 5, in one life of the
      key, and blocks for the configured time, or for 1800 seconds. */
  lemma SetFollowsSettings(now: int, events: seq<Event>, id: nat, fault: Fault, round: nat)
    requires !fault.NeverSent?
    requires var s := Run(Init(now), events); id in s.calls && s.calls[id].pc.StrikeSet?
    ensures var s := Run(Init(now), events);
      var s' := Step(s, Act(id, fault, round));
      var raw, key := s.calls[id].req.rawBlock, s.calls[id].req.Key(Strike);
      && Strike in s.calls[id].hits && s.calls[id].hits[Strike] < |s.store.log|
      && (var x := s.store.log[s.calls[id].hits[Strike]];
          forall n :: 1 <= n <= Or(raw.threshold, 5) ==> CounterLives.Counted(s.store.log, key, x.born, n))
      && key in s'.store.keys && s'.store.keys[key].value == Text("BLOCKED")
      && s'.store.keys[key].expiry == Some(s.store.now + 1000 * Or(raw.durationSeconds, 1800))
  {
    StrikeBlock.SetNeedsFullSeries(now, events, id);
    SetWrites(Run(Init(now), events), id, fault, round);
  }

  lemma SetWrites(s: System, id: nat, fault: Fault, round: nat)
    requires !fault.NeverSent? && id in s.calls && s.calls[id].pc.StrikeSet?
    ensures var st, r := Step(s, Act(id, fault, round)).store, s.calls[id].req;
      && r.Key(Strike) in st.keys && st.keys[r.Key(Strike)].value == Text("BLOCKED")
      && st.keys[r.Key(Strike)].expiry == Some(s.store.now + 1000 * Or(r.rawBlock.durationSeconds, 1800))
  {}

  /** The first striker's EXPIRE ends its series after the configured window, or 300
      seconds. */
  lemma ExpireFollowsSettings(s: System, id: nat, fault: Fault, round: nat)
    requires !fault.NeverSent? && id in s.calls && s.calls[id].pc.StrikeExpire?
    requires Live(s.store, s.calls[id].req.Key(Strike))
    ensures var st, r := Step(s, Act(id, fault, round)).store, s.calls[id].req;
      r.Key(Strike) in st.keys
      && st.keys[r.Key(Strike)].expiry == Some(s.store.now + 1000 * Or(r.rawBlock.windowSeconds, 300))
  {}

  /** Without failures, once all requests have finished, a count of strikes that has
      not led to a block is below the configured threshold, or below 5. */
  lemma QuietCountFollowsSettings(now: int, events: seq<Event>, key: string, threshold: int)
    requires CounterExpiry.NoFaults(events) && IsBlockKey(key)
    requires var s := Run(Init(now), events);
      && key in s.store.keys && s.store.keys[key].value.Num?
      && forall id :: id in s.calls ==> s.calls[id].pc.Done? && s.calls[id].req.rawBlock.threshold == threshold
    ensures Run(Init(now), events).store.keys[key].value.n < Or(threshold, 5)
  {
    BlockSettles.QuietCountsAreBelowThreshold(now, events, key, Or(threshold, 5));
  }
}
