/**
 The signature middleware cut at its Redis commands, any number of requests on any
 number of gateways at once: it follows the nonce protocol step by step, so what
 that protocol guarantees holds of the middleware's verdicts.
 */
module SignatureRuns {
  import opened Wrappers
  import opened Strings
  import opened RedisStore
  import opened SignaturePayload
  import opened ApiSignature
  import SignatureEncoding
  import NonceProtocol

  /** What all gateways share; `delay` bounds, in milliseconds, the time from a
      request's window check to its SET NX. */
  datatype Gateway = Gateway(raw: Config, lib: Library, delay: int)
  {
    function Cfg(): Config { LoadConfig(raw) }

    function Settings(): NonceProtocol.Settings {
      NonceProtocol.Settings(Cfg().skewSeconds, Cfg().nonceTtlSeconds, delay)
    }
  }

  /** Where a request stands. The times of its window check and of its last command
      are kept for the statements only. */
  datatype Pc =
    | Entering
    | LookingUp(checked: int)
    | Concluding(checked: int, who: Identity)
    | Finished(verdict: Verdict, checked: int, at: int)

  datatype Call = Call(req: Request, pc: Pc)

  datatype System = System(store: Store, calls: map<nat, Call>)

  /** Elsewhere is any command on a key that holds no nonce, such as the SET of a
      new session. */
  datatype Event =
    | Arrive(id: nat, req: Request)
    | Act(id: nat, fault: Fault)
    | Elsewhere(cmd: Command, client: nat, fault: Fault)
    | Tick(ms: nat)

  function Advance(g: Gateway, s: System, id: nat, fault: Fault): System
    requires id in s.calls
  {
    var r, pc, now := s.calls[id].req, s.calls[id].pc, s.store.now;
    match pc
    case Entering =>
      var early := Precheck(g.Cfg(), r, now);
      var pc' := if early.Some? then Finished(early.value, now, now)
                 else if TrimSpace(r.keyId) == "" then Concluding(now, Identify(g.Cfg(), r, None))
                 else LookingUp(now);
      s.(calls := s.calls[id := Call(r, pc')])
    case LookingUp(checked) =>
      var (store, reply) := Issue(s.store, Get(SessionKey(TrimSpace(r.keyId))), id, fault, 0);
      var session := ParseSession(g.lib, reply);
      var refusal := SessionRefusal(r, session, g.lib);
      var pc' := if refusal.Some? then Finished(Rejected(refusal.value), checked, now)
                 else Concluding(checked, Identify(g.Cfg(), r, session));
      System(store, s.calls[id := Call(r, pc')])
    case Concluding(checked, who) =>
      if now > checked + g.delay then s
      else
        var (store, verdict) := Conclude(s.store, g.Cfg(), r, who, g.lib, id, fault);
        System(store, s.calls[id := Call(r, Finished(verdict, checked, now))])
    case Finished(_, _, _) => s
  }

  function Step(g: Gateway, s: System, ev: Event): System {
    match ev
    case Arrive(id, r) => if id in s.calls then s else s.(calls := s.calls[id := Call(r, Entering)])
    case Act(id, fault) => if id in s.calls then Advance(g, s, id, fault) else s
    case Elsewhere(cmd, client, fault) =>
      if NonceProtocol.IsNonceKey(cmd.key) then s else s.(store := Issue(s.store, cmd, client, fault, 0).0)
    case Tick(ms) => s.(store := s.store.(now := s.store.now + ms))
  }

  function Run(g: Gateway, s: System, events: seq<Event>): System {
    if events == [] then s else Step(g, Run(g, s, events[..|events| - 1]), events[|events| - 1])
  }

  function Init(now: int): System {
    System(Store(now, map[], []), map[])
  }

  /** The request, once entered, run to its end with nobody in between. */
  function Undisturbed(g: Gateway, s: System, id: nat, r: Request, onGet: Fault, onSet: Fault): System {
    var s1 := Step(g, Step(g, s, Arrive(id, r)), Act(id, Fine));
    if TrimSpace(r.keyId) == "" then Step(g, s1, Act(id, onSet))
    else Step(g, Step(g, s1, Act(id, onGet)), Act(id, onSet))
  }

  predicate EndsLike(s: System, id: nat, result: (Store, Verdict)) {
    id in s.calls && s.calls[id].pc.Finished? && (s.store, s.calls[id].pc.verdict) == result
  }

  /** The procedure of module ApiSignature is this machine with nobody in between. */
  lemma UndisturbedIsVerify(g: Gateway, s: System, id: nat, r: Request, onGet: Fault, onSet: Fault)
    requires id !in s.calls && g.delay >= 0
    ensures EndsLike(Undisturbed(g, s, id, r, onGet, onSet), id, Verify(s.store, g.raw, r, g.lib, id, onGet, onSet))
  {
    var s1 := Step(g, Step(g, s, Arrive(id, r)), Act(id, Fine));
    assert s1.store == s.store;
    if s1.calls[id].pc.Finished? {
      assert Undisturbed(g, s, id, r, onGet, onSet) == s1;
    } else if TrimSpace(r.keyId) != "" {
      LookedUp(g, s1, id, onGet, onSet);
    }
  }

  lemma LookedUp(g: Gateway, s: System, id: nat, onGet: Fault, onSet: Fault)
    requires id in s.calls && s.calls[id].pc == LookingUp(s.store.now) && g.delay >= 0
    ensures var r := s.calls[id].req;
      var session := ParseSession(g.lib, Issue(s.store, Get(SessionKey(TrimSpace(r.keyId))), id, onGet, 0).1);
      var refusal := SessionRefusal(r, session, g.lib);
      EndsLike(Step(g, Step(g, s, Act(id, onGet)), Act(id, onSet)), id,
        if refusal.Some? then (s.store, Rejected(refusal.value))
        else Conclude(s.store, g.Cfg(), r, Identify(g.Cfg(), r, session), g.lib, id, onSet))
  {
    assert Step(g, s, Act(id, onGet)).store == s.store;
  }

  // ---------- the nonce protocol it follows ----------

  /** The nonce scope is known from the headers alone. */
  function Scope(g: Gateway, r: Request): string {
    if TrimSpace(r.keyId) != "" then "sid:" + TrimSpace(r.keyId)
    else if TrimSpace(r.appId) != "" then TrimSpace(r.appId)
    else g.Cfg().defaultAppId
  }

  function Timestamp(r: Request): int {
    var t := ParseUnixTimestamp(TrimSpace(r.timestamp));
    if t.Some? then t.value else 0
  }

  function View(g: Gateway, c: Call): NonceProtocol.Check {
    NonceProtocol.Check(Scope(g, c.req), TrimSpace(c.req.nonce), Timestamp(c.req),
      match c.pc
      case Entering => NonceProtocol.AtWindow
      case LookingUp(checked) => NonceProtocol.AtSetNx(checked)
      case Concluding(checked, _) => NonceProtocol.AtSetNx(checked)
      case Finished(verdict, checked, at) =>
        if verdict.Verified? then NonceProtocol.Accepted(checked, at) else NonceProtocol.Refused)
  }

  ghost predicate CallFollows(g: Gateway, c: Call, n: NonceProtocol.Check) {
    n == View(g, c) && (c.pc.Concluding? ==> c.pc.who.scope == Scope(g, c.req))
    && (c.pc.LookingUp? ==> TrimSpace(c.req.keyId) != "")
  }

  ghost predicate Follows(g: Gateway, s: System, n: NonceProtocol.System) {
    && s.store == n.store
    && (forall id :: id in s.calls <==> id in n.checks)
    && (forall id :: id in s.calls ==> CallFollows(g, s.calls[id], n.checks[id]))
  }

  /** The step of the nonce protocol that an event amounts to. */
  function Abstract(g: Gateway, s: System, ev: Event): NonceProtocol.Event {
    match ev
    case Arrive(id, r) => NonceProtocol.Arrive(id, Scope(g, r), TrimSpace(r.nonce), Timestamp(r))
    case Elsewhere(cmd, client, fault) => NonceProtocol.Elsewhere(cmd, client, fault)
    case Tick(ms) => NonceProtocol.Tick(ms)
    case Act(id, fault) =>
      if id !in s.calls || s.calls[id].pc.Finished? then NonceProtocol.Tick(0)
      else
        var pc, after := s.calls[id].pc, Advance(g, s, id, fault).calls[id].pc;
        if after.Finished? && !SetsNonce(g, s.calls[id]) then NonceProtocol.GiveUp(id)
        else if pc.Entering? then NonceProtocol.CheckWindow(id)
        else if after.Finished? then NonceProtocol.SetNonce(id, fault)
        else NonceProtocol.Tick(0)
  }

  /** The request is past all checks but the nonce. */
  predicate SetsNonce(g: Gateway, c: Call) {
    c.pc.Concluding? && c.pc.who.secret != ""
    && SignatureEncoding.IsSignatureEqual(TrimSpace(c.req.sign),
         SignatureEncoding.HexEncode(g.lib.hmac(c.pc.who.secret, SignedText(c.req, g.lib))))
  }

  lemma OnlyOkIsVerified(st: Store, key: string, ttl: int, id: nat, fault: Fault, appId: string, keyId: string)
    ensures var reply := Issue(st, SetNx(key, "1", ttl), id, fault, 0).1;
      NonceVerdict(reply, appId, keyId).Verified? <==> NonceProtocol.SaysOk(reply)
  {
    TrimSpaceTrims("OK");
    assert ToUpper("OK") == "OK";
  }

  lemma EarlyMeansNotVerified(g: Gateway, r: Request, now: int)
    ensures Precheck(g.Cfg(), r, now).Some? ==> !Precheck(g.Cfg(), r, now).value.Verified?
    ensures Precheck(g.Cfg(), r, now).None? ==> NonceProtocol.InWindow(now, Timestamp(r), g.Settings().skew)
  {}

  /** What one step of a request and its counterpart leave behind. */
  ghost predicate Keeps(g: Gateway, s: System, n: NonceProtocol.System, id: nat, fault: Fault)
    requires id in s.calls
  {
    var s', n' := Advance(g, s, id, fault), NonceProtocol.Step(n, Abstract(g, s, Act(id, fault)), g.Settings());
    && s'.store == n'.store
    && id in n.checks && n'.checks == n.checks[id := View(g, s'.calls[id])]
    && CallFollows(g, s'.calls[id], View(g, s'.calls[id]))
  }

  lemma EnteringFollows(g: Gateway, s: System, n: NonceProtocol.System, id: nat, fault: Fault)
    requires s.store == n.store && id in s.calls && id in n.checks && CallFollows(g, s.calls[id], n.checks[id])
    requires s.calls[id].pc.Entering?
    ensures Keeps(g, s, n, id, fault)
  {
    if Precheck(g.Cfg(), s.calls[id].req, s.store.now).Some? {
      EarlyEndFollows(g, s, n, id, fault);
    } else {
      PassingFollows(g, s, n, id, fault);
    }
  }

  lemma EarlyEndFollows(g: Gateway, s: System, n: NonceProtocol.System, id: nat, fault: Fault)
    requires s.store == n.store && id in s.calls && id in n.checks && CallFollows(g, s.calls[id], n.checks[id])
    requires s.calls[id].pc.Entering? && Precheck(g.Cfg(), s.calls[id].req, s.store.now).Some?
    ensures Keeps(g, s, n, id, fault)
  {
    EarlyMeansNotVerified(g, s.calls[id].req, s.store.now);
    assert Abstract(g, s, Act(id, fault)) == NonceProtocol.GiveUp(id);
  }

  lemma PassingFollows(g: Gateway, s: System, n: NonceProtocol.System, id: nat, fault: Fault)
    requires s.store == n.store && id in s.calls && id in n.checks && CallFollows(g, s.calls[id], n.checks[id])
    requires s.calls[id].pc.Entering? && Precheck(g.Cfg(), s.calls[id].req, s.store.now).None?
    ensures Keeps(g, s, n, id, fault)
  {
    EarlyMeansNotVerified(g, s.calls[id].req, s.store.now);
    assert Abstract(g, s, Act(id, fault)) == NonceProtocol.CheckWindow(id);
  }

  lemma LookingUpFollows(g: Gateway, s: System, n: NonceProtocol.System, id: nat, fault: Fault)
    requires s.store == n.store && id in s.calls && id in n.checks && CallFollows(g, s.calls[id], n.checks[id])
    requires s.calls[id].pc.LookingUp?
    ensures Keeps(g, s, n, id, fault)
  {
    var c, c' := s.calls[id], Advance(g, s, id, fault).calls[id];
    assert Advance(g, s, id, fault).store == s.store;
    if c'.pc.Concluding? {
      assert View(g, c') == n.checks[id];
      assert n.checks[id := n.checks[id]] == n.checks;
    }
  }

  lemma ConcludingFollows(g: Gateway, s: System, n: NonceProtocol.System, id: nat, fault: Fault)
    requires s.store == n.store && id in s.calls && id in n.checks && CallFollows(g, s.calls[id], n.checks[id])
    requires s.calls[id].pc.Concluding?
    ensures Keeps(g, s, n, id, fault)
  {
    var c := s.calls[id];
    if s.store.now > c.pc.checked + g.delay {
      assert n.checks[id := n.checks[id]] == n.checks;
    } else if SetsNonce(g, c) {
      SettingFollows(g, s, n, id, fault);
    } else {
      RefusingFollows(g, s, n, id, fault);
    }
  }

  lemma RefusingFollows(g: Gateway, s: System, n: NonceProtocol.System, id: nat, fault: Fault)
    requires s.store == n.store && id in s.calls && id in n.checks && CallFollows(g, s.calls[id], n.checks[id])
    requires s.calls[id].pc.Concluding? && !SetsNonce(g, s.calls[id]) && s.store.now <= s.calls[id].pc.checked + g.delay
    ensures Keeps(g, s, n, id, fault)
  {
    assert Abstract(g, s, Act(id, fault)) == NonceProtocol.GiveUp(id);
  }

  lemma SettingFollows(g: Gateway, s: System, n: NonceProtocol.System, id: nat, fault: Fault)
    requires s.store == n.store && id in s.calls && id in n.checks && CallFollows(g, s.calls[id], n.checks[id])
    requires SetsNonce(g, s.calls[id]) && s.store.now <= s.calls[id].pc.checked + g.delay
    ensures Keeps(g, s, n, id, fault)
  {
    var c := s.calls[id];
    var who := c.pc.who;
    assert Abstract(g, s, Act(id, fault)) == NonceProtocol.SetNonce(id, fault);
    OnlyOkIsVerified(s.store, NonceProtocol.NonceKey(who.scope, TrimSpace(c.req.nonce)), 1000 * g.Cfg().nonceTtlSeconds,
                     id, fault, who.appId, TrimSpace(c.req.keyId));
  }

  lemma StepFollows(g: Gateway, s: System, n: NonceProtocol.System, ev: Event)
    requires Follows(g, s, n)
    ensures Follows(g, Step(g, s, ev), NonceProtocol.Step(n, Abstract(g, s, ev), g.Settings()))
  {
    if ev.Act? && ev.id in s.calls {
      var c := s.calls[ev.id];
      assert CallFollows(g, c, n.checks[ev.id]);
      match c.pc
      case Entering => EnteringFollows(g, s, n, ev.id, ev.fault); KeepsFollowing(g, s, n, ev.id, ev.fault);
      case LookingUp(_) => LookingUpFollows(g, s, n, ev.id, ev.fault); KeepsFollowing(g, s, n, ev.id, ev.fault);
      case Concluding(_, _) => ConcludingFollows(g, s, n, ev.id, ev.fault); KeepsFollowing(g, s, n, ev.id, ev.fault);
      case Finished(_, _, _) =>
    } else if ev.Arrive? && ev.id !in s.calls {
      ArriveFollows(g, s, n, ev.id, ev.req);
    }
  }

  lemma KeepsFollowing(g: Gateway, s: System, n: NonceProtocol.System, id: nat, fault: Fault)
    requires Follows(g, s, n) && id in s.calls && Keeps(g, s, n, id, fault)
    ensures Follows(g, Advance(g, s, id, fault), NonceProtocol.Step(n, Abstract(g, s, Act(id, fault)), g.Settings()))
  {
    var s', n' := Advance(g, s, id, fault), NonceProtocol.Step(n, Abstract(g, s, Act(id, fault)), g.Settings());
    OnlyOneMoves(g, s, id, fault);
    forall other | other in s'.calls ensures other in n'.checks && CallFollows(g, s'.calls[other], n'.checks[other]) {
      if other != id { assert CallFollows(g, s.calls[other], n.checks[other]); }
    }
  }

  lemma OnlyOneMoves(g: Gateway, s: System, id: nat, fault: Fault)
    requires id in s.calls
    ensures var s' := Advance(g, s, id, fault); id in s'.calls && s'.calls == s.calls[id := s'.calls[id]]
  {}

  lemma ArriveFollows(g: Gateway, s: System, n: NonceProtocol.System, id: nat, r: Request)
    requires Follows(g, s, n) && id !in s.calls
    ensures Follows(g, Step(g, s, Arrive(id, r)), NonceProtocol.Step(n, Abstract(g, s, Arrive(id, r)), g.Settings()))
  {
    var s', n' := Step(g, s, Arrive(id, r)), NonceProtocol.Step(n, Abstract(g, s, Arrive(id, r)), g.Settings());
    forall other | other in s'.calls ensures CallFollows(g, s'.calls[other], n'.checks[other]) {
      if other != id { assert CallFollows(g, s.calls[other], n.checks[other]); }
    }
  }

  function AbstractRun(g: Gateway, now: int, events: seq<Event>): seq<NonceProtocol.Event> {
    if events == [] then []
    else
      var before := events[..|events| - 1];
      AbstractRun(g, now, before) + [Abstract(g, Run(g, Init(now), before), events[|events| - 1])]
  }

  /** Main result: every run of the middleware is a run of the nonce protocol. */
  lemma {:induction false} RunFollows(g: Gateway, now: int, events: seq<Event>)
    ensures Follows(g, Run(g, Init(now), events),
                    NonceProtocol.Run(NonceProtocol.Init(now), AbstractRun(g, now, events), g.Settings()))
  {
    if events != [] {
      var before, ev := events[..|events| - 1], events[|events| - 1];
      var steps := AbstractRun(g, now, before);
      RunFollows(g, now, before);
      StepFollows(g, Run(g, Init(now), before), NonceProtocol.Run(NonceProtocol.Init(now), steps, g.Settings()), ev);
      assert AbstractRun(g, now, events)[..|steps|] == steps;
    }
  }

  predicate IsVerified(s: System, id: nat) {
    id in s.calls && s.calls[id].pc.Finished? && s.calls[id].pc.verdict.Verified?
  }

  /** The two requests carry the same scope, nonce and timestamp. */
  predicate Alike(g: Gateway, r1: Request, r2: Request) {
    Scope(g, r1) == Scope(g, r2) && TrimSpace(r1.nonce) == TrimSpace(r2.nonce) && Timestamp(r1) == Timestamp(r2)
  }

  predicate VerifiedTwice(g: Gateway, s: System, a: nat, b: nat) {
    a != b && IsVerified(s, a) && IsVerified(s, b) && Alike(g, s.calls[a].req, s.calls[b].req)
  }

  lemma TwiceIsTwice(g: Gateway, s: System, n: NonceProtocol.System, a: nat, b: nat)
    requires Follows(g, s, n) && VerifiedTwice(g, s, a, b)
    ensures NonceProtocol.AcceptedTwice(n, a, b) && n.checks[a].timestamp == Timestamp(s.calls[a].req)
    ensures n.checks[a].pc == NonceProtocol.Accepted(s.calls[a].pc.checked, s.calls[a].pc.at)
    ensures n.checks[b].pc == NonceProtocol.Accepted(s.calls[b].pc.checked, s.calls[b].pc.at)
  {
    assert CallFollows(g, s.calls[a], n.checks[a]) && CallFollows(g, s.calls[b], n.checks[b]);
  }

  /** Main result: with the nonce kept longer than twice the skew and the delay, no
      run of the middleware verifies two requests with the same scope, nonce and
      timestamp of ordinary size. */
  lemma VerifiedOnce(g: Gateway, now: int, events: seq<Event>, a: nat, b: nat)
    requires g.Settings().Ok() && 1000 * g.Cfg().nonceTtlSeconds > 2000 * g.Cfg().skewSeconds + g.delay
    ensures var s := Run(g, Init(now), events);
      VerifiedTwice(g, s, a, b) ==> !NonceProtocol.NotFarFuture(now, Timestamp(s.calls[a].req))
  {
    var s, steps := Run(g, Init(now), events), AbstractRun(g, now, events);
    if VerifiedTwice(g, s, a, b) {
      RunFollows(g, now, events);
      TwiceIsTwice(g, s, NonceProtocol.Run(NonceProtocol.Init(now), steps, g.Settings()), a, b);
      NonceProtocol.NonceIsSingleUse(now, steps, g.Settings(), a, b);
    }
  }

  /** For timestamps not ahead at the first time, skew plus delay is enough. */
  lemma PastVerifiedOnce(g: Gateway, now: int, events: seq<Event>, a: nat, b: nat)
    requires g.Settings().Ok() && 1000 * g.Cfg().nonceTtlSeconds > 1000 * g.Cfg().skewSeconds + g.delay
    ensures var s := Run(g, Init(now), events);
      VerifiedTwice(g, s, a, b) && s.calls[a].pc.at <= s.calls[b].pc.at ==>
        1000 * Timestamp(s.calls[a].req) > s.calls[a].pc.checked
  {
    var s, steps := Run(g, Init(now), events), AbstractRun(g, now, events);
    if VerifiedTwice(g, s, a, b) {
      RunFollows(g, now, events);
      TwiceIsTwice(g, s, NonceProtocol.Run(NonceProtocol.Init(now), steps, g.Settings()), a, b);
      NonceProtocol.PastTimestampIsSingleUse(now, steps, g.Settings(), a, b);
    }
  }
}
