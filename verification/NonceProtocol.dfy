/**
 The timestamp window and the single-use nonce, with any number of requests in
 flight between their window check and their SET NX. Gateways and Redis read one
 clock, in milliseconds.
 */
module NonceProtocol {
  import opened Wrappers
  import opened Strings
  import opened RedisStore

  // ---------- the window, with the saturating time.Sub of Go ----------

  const MIN_DURATION: int := -0x8000_0000_0000_0000
  const MAX_DURATION: int := 0x7FFF_FFFF_FFFF_FFFF

  /** now.Sub(t) in nanoseconds: out-of-range differences stick at the ends. */
  function Sub(now: int, t: int): int {
    var d := (now - t) * 1_000_000;
    if d < MIN_DURATION then MIN_DURATION else if d > MAX_DURATION then MAX_DURATION else d
  }

  /** -d on 64 bits: the least value is its own negative. */
  function Negate(d: int): int {
    if d == MIN_DURATION then d else -d
  }

  function InWindow(now: int, timestamp: int, skewSeconds: int): bool {
    var d := Sub(now, 1000 * timestamp);
    var diff := if d < 0 then Negate(d) else d;
    diff <= skewSeconds * 1_000_000_000
  }

  /** The check means "at most the skew away, in either direction", except that
      every timestamp at least 2^63 nanoseconds ahead also passes. */
  lemma InWindowIff(now: int, timestamp: int, skewSeconds: int)
    requires 0 < skewSeconds && skewSeconds * 1_000_000_000 <= MAX_DURATION
    ensures InWindow(now, timestamp, skewSeconds) <==>
      || -1000 * skewSeconds <= now - 1000 * timestamp <= 1000 * skewSeconds
      || (now - 1000 * timestamp) * 1_000_000 <= MIN_DURATION
  {}

  /** A timestamp in the year 2317, checked in 2023, is inside a window of five minutes. */
  lemma FarFutureIsInWindow()
    ensures InWindow(1_700_000_000_000, 10_950_000_000, 300)
  {}

  // ---------- the protocol ----------

  /** Settings in seconds; `delay` bounds, in milliseconds, the time from a
      request's window check to its SET NX. */
  datatype Settings = Settings(skew: int, ttl: int, delay: int)
  {
    predicate Ok() { 0 < skew && skew * 1_000_000_000 <= MAX_DURATION && 0 < ttl && 0 <= delay }
  }

  datatype Pc = AtWindow | AtSetNx(checked: int) | Accepted(checked: int, set_: int) | Refused

  datatype Check = Check(scope: string, nonce: string, timestamp: int, pc: Pc)

  datatype System = System(store: Store, checks: map<nat, Check>)

  datatype Event =
    | Arrive(id: nat, scope: string, nonce: string, timestamp: int)
    | CheckWindow(id: nat)
    | SetNonce(id: nat, fault: Fault)
    | GiveUp(id: nat)
    | Elsewhere(cmd: Command, client: nat, fault: Fault)
    | Tick(ms: nat)

  function NonceKey(scope: string, nonce: string): string {
    "api_sign_nonce:" + scope + ":" + nonce
  }

  predicate IsNonceKey(key: string) {
    HasPrefix(key, "api_sign_nonce:")
  }

  /** Two pairs share a key if and only if they are equal or one scope is the other
      followed by a colon and the front of the other's nonce. */
  lemma NonceKeysCollideIff(scope1: string, nonce1: string, scope2: string, nonce2: string)
    ensures NonceKey(scope1, nonce1) == NonceKey(scope2, nonce2) <==>
      || (scope1 == scope2 && nonce1 == nonce2)
      || (exists m :: scope1 == scope2 + ":" + m && nonce2 == m + ":" + nonce1)
      || (exists m :: scope2 == scope1 + ":" + m && nonce1 == m + ":" + nonce2)
  {
    var s, t := scope1 + ":" + nonce1, scope2 + ":" + nonce2;
    assert NonceKey(scope1, nonce1)[15..] == s && NonceKey(scope2, nonce2)[15..] == t;
    if s == t {
      if |scope1| >= |scope2| {
        SplitTwice(scope1, nonce1, scope2, nonce2);
      } else {
        SplitTwice(scope2, nonce2, scope1, nonce1);
      }
    } else {
      forall m ensures !(scope1 == scope2 + ":" + m && nonce2 == m + ":" + nonce1) {
        assert (scope2 + ":" + m) + ":" + nonce1 == scope2 + ":" + (m + ":" + nonce1);
      }
      forall m ensures !(scope2 == scope1 + ":" + m && nonce1 == m + ":" + nonce2) {
        assert (scope1 + ":" + m) + ":" + nonce2 == scope1 + ":" + (m + ":" + nonce2);
      }
    }
  }

  /** A text split at two of its colons. */
  lemma SplitTwice(scope1: string, nonce1: string, scope2: string, nonce2: string)
    requires scope1 + ":" + nonce1 == scope2 + ":" + nonce2 && |scope1| >= |scope2|
    ensures (scope1 == scope2 && nonce1 == nonce2)
            || exists m :: scope1 == scope2 + ":" + m && nonce2 == m + ":" + nonce1
  {
    var s := scope1 + ":" + nonce1;
    var n := |scope2|;
    assert s == scope2 + ":" + nonce2;
    assert s[..n] == scope2 && s[n] == ':' && s[n + 1..] == nonce2;
    if |scope1| == n {
      assert scope1 == s[..n] && nonce1 == s[n + 1..];
    } else {
      var m := scope1[n + 1..];
      assert scope1 == s[..n] + ":" + m;
      assert nonce2 == m + ":" + nonce1;
    }
  }

  /** In particular nonces of two sessions never meet: their key ids have one length. */
  lemma SessionNoncesDoNotCollide(scope1: string, nonce1: string, scope2: string, nonce2: string)
    requires |scope1| == |scope2| && NonceKey(scope1, nonce1) == NonceKey(scope2, nonce2)
    ensures scope1 == scope2 && nonce1 == nonce2
  {
    NonceKeysCollideIff(scope1, nonce1, scope2, nonce2);
  }

  function Key(c: Check): string { NonceKey(c.scope, c.nonce) }

  predicate SaysOk(reply: Reply) {
    reply.Found? && reply.value == Text("OK")
  }

  /** checkAndSetNonce as one command; GiveUp stands for every other refusal
      (missing headers, session, application, signature), and Elsewhere for any
      command on a key that holds no nonce. */
  function Step(s: System, ev: Event, cfg: Settings): System {
    match ev
    case Arrive(id, scope, nonce, timestamp) =>
      if id in s.checks then s else s.(checks := s.checks[id := Check(scope, nonce, timestamp, AtWindow)])
    case CheckWindow(id) =>
      if id in s.checks && s.checks[id].pc.AtWindow? then
        var ok := InWindow(s.store.now, s.checks[id].timestamp, cfg.skew);
        s.(checks := s.checks[id := s.checks[id].(pc := if ok then AtSetNx(s.store.now) else Refused)])
      else s
    case SetNonce(id, fault) =>
      if id in s.checks && s.checks[id].pc.AtSetNx? && s.store.now <= s.checks[id].pc.checked + cfg.delay then
        var c := s.checks[id];
        var (store, reply) := Issue(s.store, SetNx(Key(c), "1", 1000 * cfg.ttl), id, fault, 0);
        var pc := if SaysOk(reply) then Accepted(c.pc.checked, s.store.now) else Refused;
        System(store, s.checks[id := c.(pc := pc)])
      else s
    case GiveUp(id) =>
      if id in s.checks && (s.checks[id].pc.AtWindow? || s.checks[id].pc.AtSetNx?)
      then s.(checks := s.checks[id := s.checks[id].(pc := Refused)]) else s
    case Elsewhere(cmd, client, fault) =>
      if IsNonceKey(cmd.key) then s else s.(store := Issue(s.store, cmd, client, fault, 0).0)
    case Tick(ms) => s.(store := s.store.(now := s.store.now + ms))
  }

  function Run(s: System, events: seq<Event>, cfg: Settings): System {
    if events == [] then s else Step(Run(s, events[..|events| - 1], cfg), events[|events| - 1], cfg)
  }

  function Init(now: int): System {
    System(Store(now, map[], []), map[])
  }

  // ---------- safety ----------

  ghost predicate CheckOk(s: System, c: Check, cfg: Settings) {
    match c.pc
    case AtSetNx(checked) => checked <= s.store.now && InWindow(checked, c.timestamp, cfg.skew)
    case Accepted(checked, at) =>
      && checked <= at <= checked + cfg.delay && at <= s.store.now
      && InWindow(checked, c.timestamp, cfg.skew)
      && Key(c) in s.store.keys
      && s.store.keys[Key(c)].expiry.Some? && s.store.keys[Key(c)].expiry.value >= at + 1000 * cfg.ttl
    case _ => true
  }

  /** Acceptances of one key are at least the nonce's life apart. */
  ghost predicate Apart(a: Check, b: Check, cfg: Settings) {
    a.pc.Accepted? && b.pc.Accepted? && Key(a) == Key(b) ==>
      a.pc.set_ + 1000 * cfg.ttl <= b.pc.set_ || b.pc.set_ + 1000 * cfg.ttl <= a.pc.set_
  }

  ghost predicate SystemOk(s: System, cfg: Settings) {
    && (forall id :: id in s.checks ==> CheckOk(s, s.checks[id], cfg))
    && (forall a, b :: a in s.checks && b in s.checks && a != b ==> Apart(s.checks[a], s.checks[b], cfg))
  }

  lemma SetNonceKeeps(s: System, id: nat, fault: Fault, cfg: Settings)
    requires SystemOk(s, cfg) && cfg.Ok()
    ensures SystemOk(Step(s, SetNonce(id, fault), cfg), cfg)
  {
    var s' := Step(s, SetNonce(id, fault), cfg);
    if s' != s {
      var c, c' := s.checks[id], s'.checks[id];
      assert CheckOk(s, c, cfg);
      forall other | other in s'.checks ensures CheckOk(s', s'.checks[other], cfg) {
        if other != id { assert CheckOk(s, s.checks[other], cfg); }
      }
      forall other | other in s'.checks && other != id
        ensures Apart(s'.checks[other], c', cfg) && Apart(c', s'.checks[other], cfg)
      {
        assert CheckOk(s, s.checks[other], cfg);
      }
    }
  }

  lemma StepKeeps(s: System, ev: Event, cfg: Settings)
    requires SystemOk(s, cfg) && cfg.Ok()
    ensures SystemOk(Step(s, ev, cfg), cfg)
  {
    if ev.SetNonce? {
      SetNonceKeeps(s, ev.id, ev.fault, cfg);
    } else if ev.Elsewhere? {
      ElsewhereKeeps(s, ev, cfg);
    } else {
      var s' := Step(s, ev, cfg);
      forall id | id in s'.checks ensures CheckOk(s', s'.checks[id], cfg) {
        if id in s.checks { assert CheckOk(s, s.checks[id], cfg); }
      }
    }
  }

  /** Other commands leave every nonce key as it is. */
  lemma ElsewhereKeeps(s: System, ev: Event, cfg: Settings)
    requires SystemOk(s, cfg) && ev.Elsewhere?
    ensures SystemOk(Step(s, ev, cfg), cfg)
  {
    var s' := Step(s, ev, cfg);
    forall id | id in s'.checks ensures CheckOk(s', s'.checks[id], cfg) {
      assert CheckOk(s, s.checks[id], cfg);
      assert IsNonceKey(Key(s.checks[id]));
    }
  }

  lemma {:induction false} RunKeeps(now: int, events: seq<Event>, cfg: Settings)
    requires cfg.Ok()
    ensures SystemOk(Run(Init(now), events, cfg), cfg)
  {
    if events != [] {
      RunKeeps(now, events[..|events| - 1], cfg);
      StepKeeps(Run(Init(now), events[..|events| - 1], cfg), events[|events| - 1], cfg);
    }
  }

  predicate Twins(a: Check, b: Check) {
    a.scope == b.scope && a.nonce == b.nonce && a.timestamp == b.timestamp && a.pc.Accepted? && b.pc.Accepted?
  }

  /** Two acceptances of the same scope, nonce and timestamp happened in this state. */
  predicate AcceptedTwice(s: System, a: nat, b: nat) {
    a in s.checks && b in s.checks && a != b && Twins(s.checks[a], s.checks[b])
  }

  /** The timestamp is less than 2^63 nanoseconds after the time `t`. */
  predicate NotFarFuture(t: int, timestamp: int) {
    (1000 * timestamp - t) * 1_000_000 < -MIN_DURATION
  }

  /** With the nonce kept longer than twice the skew and the delay, no run accepts
      the same scope, nonce and timestamp twice. */
  lemma NonceIsSingleUse(now: int, events: seq<Event>, cfg: Settings, a: nat, b: nat)
    requires cfg.Ok() && 1000 * cfg.ttl > 2000 * cfg.skew + cfg.delay
    ensures AcceptedTwice(Run(Init(now), events, cfg), a, b) ==>
      !NotFarFuture(now, Run(Init(now), events, cfg).checks[a].timestamp)
  {
    var s := Run(Init(now), events, cfg);
    if AcceptedTwice(s, a, b) {
      var x, y := s.checks[a], s.checks[b];
      RunKeeps(now, events, cfg);
      CheckedAfterStart(now, events, cfg, a);
      CheckedAfterStart(now, events, cfg, b);
      assert CheckOk(s, x, cfg) && CheckOk(s, y, cfg) && Apart(x, y, cfg);
      InWindowIff(x.pc.checked, x.timestamp, cfg.skew);
      InWindowIff(y.pc.checked, y.timestamp, cfg.skew);
    }
  }

  lemma {:induction false} CheckedAfterStart(now: int, events: seq<Event>, cfg: Settings, id: nat)
    ensures var s := Run(Init(now), events, cfg);
      && s.store.now >= now
      && (id in s.checks && (s.checks[id].pc.AtSetNx? || s.checks[id].pc.Accepted?) ==> s.checks[id].pc.checked >= now)
  {
    if events != [] {
      CheckedAfterStart(now, events[..|events| - 1], cfg, id);
    }
  }

  /** For a timestamp that was not ahead when first accepted, keeping the nonce
      longer than the skew and the delay is enough. */
  lemma PastTimestampIsSingleUse(now: int, events: seq<Event>, cfg: Settings, a: nat, b: nat)
    requires cfg.Ok() && 1000 * cfg.ttl > 1000 * cfg.skew + cfg.delay
    ensures var s := Run(Init(now), events, cfg);
      AcceptedTwice(s, a, b) && s.checks[a].pc.set_ <= s.checks[b].pc.set_ ==>
        1000 * s.checks[a].timestamp > s.checks[a].pc.checked
  {
    var s := Run(Init(now), events, cfg);
    if AcceptedTwice(s, a, b) && s.checks[a].pc.set_ <= s.checks[b].pc.set_ {
      var x, y := s.checks[a], s.checks[b];
      RunKeeps(now, events, cfg);
      assert CheckOk(s, x, cfg) && CheckOk(s, y, cfg) && Apart(x, y, cfg);
      InWindowIff(x.pc.checked, x.timestamp, cfg.skew);
      InWindowIff(y.pc.checked, y.timestamp, cfg.skew);
    }
  }

  // ---------- exactly when a nonce is single-use ----------

  /** What a replayed request repeats. */
  datatype Ticket = Ticket(scope: string, nonce: string, timestamp: int)

  predicate AcceptedTwiceWith(s: System, a: nat, b: nat, ticket: Ticket) {
    AcceptedTwice(s, a, b) && s.checks[a].scope == ticket.scope && s.checks[a].nonce == ticket.nonce
    && s.checks[a].timestamp == ticket.timestamp
  }

  /** No run that starts less than 2^63 nanoseconds before the timestamp accepts
      the ticket twice. */
  ghost predicate SingleUse(cfg: Settings, ticket: Ticket) {
    forall now, events, a, b :: NotFarFuture(now, ticket.timestamp) ==>
      !AcceptedTwiceWith(Run(Init(now), events, cfg), a, b, ticket)
  }

  /** No run accepts the ticket again after a first time at which its timestamp was
      not ahead. */
  ghost predicate PastSingleUse(cfg: Settings, ticket: Ticket) {
    forall now, events, a, b :: AcceptedTwiceWith(Run(Init(now), events, cfg), a, b, ticket) ==>
      var s := Run(Init(now), events, cfg);
      s.checks[a].pc.set_ <= s.checks[b].pc.set_ ==> 1000 * ticket.timestamp > s.checks[a].pc.checked
  }

  /** A run in which one ticket is checked at once and after a wait, and the second
      SET NX follows its check by `late`. */
  function CheckedTwice(x: Ticket, wait: nat, late: nat): seq<Event> {
    [Arrive(1, x.scope, x.nonce, x.timestamp), CheckWindow(1), SetNonce(1, Fine),
     Arrive(2, x.scope, x.nonce, x.timestamp), Tick(wait), CheckWindow(2), Tick(late), SetNonce(2, Fine)]
  }

  /** If both checks pass and the nonce does not outlast the second SET NX, both
      requests are accepted. */
  lemma BothAreAccepted(cfg: Settings, now: int, ticket: Ticket, wait: nat, late: nat)
    requires cfg.Ok() && late <= cfg.delay && 1000 * cfg.ttl <= wait + late
    requires InWindow(now, ticket.timestamp, cfg.skew) && InWindow(now + wait, ticket.timestamp, cfg.skew)
    ensures var s := Run(Init(now), CheckedTwice(ticket, wait, late), cfg);
      AcceptedTwiceWith(s, 1, 2, ticket) && s.checks[1].pc == Accepted(now, now)
      && s.checks[2].pc == Accepted(now + wait, now + wait + late)
  {
    var e := CheckedTwice(ticket, wait, late);
    var key := NonceKey(ticket.scope, ticket.nonce);
    var s0 := Init(now);
    var s3 := Step(Step(Step(s0, e[0], cfg), e[1], cfg), e[2], cfg);
    assert s3.checks[1].pc == Accepted(now, now) && s3.store.keys[key].expiry == Some(now + 1000 * cfg.ttl);
    var s5 := Step(Step(s3, e[3], cfg), e[4], cfg);
    var s8 := Step(Step(Step(s5, e[5], cfg), e[6], cfg), e[7], cfg);
    assert s8.checks[2].pc == Accepted(now + wait, now + wait + late);
    RunEight(s0, e, cfg);
  }

  /** A ticket checked at both edges of its window. */
  lemma EdgeToEdgeAcceptsTwice(cfg: Settings, ticket: Ticket)
    requires cfg.Ok() && 1000 * cfg.ttl <= 2000 * cfg.skew + cfg.delay
    ensures !SingleUse(cfg, ticket)
  {
    var now := 1000 * ticket.timestamp - 1000 * cfg.skew;
    InWindowIff(now, ticket.timestamp, cfg.skew);
    InWindowIff(now + 2000 * cfg.skew, ticket.timestamp, cfg.skew);
    BothAreAccepted(cfg, now, ticket, 2000 * cfg.skew, cfg.delay);
    assert NotFarFuture(now, ticket.timestamp);
  }

  /** A ticket checked at the time it names and at the end of its window. */
  lemma MiddleToEdgeAcceptsTwice(cfg: Settings, ticket: Ticket)
    requires cfg.Ok() && 1000 * cfg.ttl <= 1000 * cfg.skew + cfg.delay
    ensures !PastSingleUse(cfg, ticket)
  {
    var now := 1000 * ticket.timestamp;
    InWindowIff(now, ticket.timestamp, cfg.skew);
    InWindowIff(now + 1000 * cfg.skew, ticket.timestamp, cfg.skew);
    BothAreAccepted(cfg, now, ticket, 1000 * cfg.skew, cfg.delay);
  }

  /** No lifetime makes far-future timestamps single-use: from any time at which
      the timestamp is far ahead, and still is when the nonce has expired, some run
      accepts it twice, whatever the scope and the nonce. */
  lemma FarFutureIsAcceptedTwice(cfg: Settings, now: int, ticket: Ticket)
    requires cfg.Ok() && !NotFarFuture(now + 1000 * cfg.ttl, ticket.timestamp)
    ensures AcceptedTwiceWith(Run(Init(now), CheckedTwice(ticket, 1000 * cfg.ttl, 0), cfg), 1, 2, ticket)
  {
    InWindowIff(now, ticket.timestamp, cfg.skew);
    InWindowIff(now + 1000 * cfg.ttl, ticket.timestamp, cfg.skew);
    BothAreAccepted(cfg, now, ticket, 1000 * cfg.ttl, 0);
  }

  lemma RunEight(s: System, e: seq<Event>, cfg: Settings)
    requires |e| == 8
    ensures Run(s, e, cfg)
         == Step(Step(Step(Step(Step(Step(Step(Step(s, e[0], cfg), e[1], cfg), e[2], cfg), e[3], cfg), e[4], cfg), e[5], cfg), e[6], cfg), e[7], cfg)
  {
    assert e[..8] == e && e[..0] == [];
    assert forall i :: 0 <= i < 8 ==> e[..i + 1][..i] == e[..i];
    assert Run(s, e[..1], cfg) == Step(s, e[0], cfg);
    assert Run(s, e[..2], cfg) == Step(Run(s, e[..1], cfg), e[1], cfg);
    assert Run(s, e[..3], cfg) == Step(Run(s, e[..2], cfg), e[2], cfg);
    assert Run(s, e[..4], cfg) == Step(Run(s, e[..3], cfg), e[3], cfg);
    assert Run(s, e[..5], cfg) == Step(Run(s, e[..4], cfg), e[4], cfg);
    assert Run(s, e[..6], cfg) == Step(Run(s, e[..5], cfg), e[5], cfg);
    assert Run(s, e[..7], cfg) == Step(Run(s, e[..6], cfg), e[6], cfg);
    assert Run(s, e[..8], cfg) == Step(Run(s, e[..7], cfg), e[7], cfg);
  }

  /** Main result: for every scope, nonce and timestamp, a nonce is single-use in
      every run exactly when it is kept longer than the whole window plus the delay. */
  lemma SingleUseIff(cfg: Settings, ticket: Ticket)
    requires cfg.Ok()
    ensures SingleUse(cfg, ticket) <==> 1000 * cfg.ttl > 2000 * cfg.skew + cfg.delay
  {
    if 1000 * cfg.ttl > 2000 * cfg.skew + cfg.delay {
      forall now, events, a, b | NotFarFuture(now, ticket.timestamp)
        ensures !AcceptedTwiceWith(Run(Init(now), events, cfg), a, b, ticket)
      {
        NonceIsSingleUse(now, events, cfg, a, b);
      }
    } else {
      EdgeToEdgeAcceptsTwice(cfg, ticket);
    }
  }

  /** Main result: if only tickets that were not ahead at first matter, it is enough
      and necessary to keep the nonce longer than the skew plus the delay. */
  lemma PastSingleUseIff(cfg: Settings, ticket: Ticket)
    requires cfg.Ok()
    ensures PastSingleUse(cfg, ticket) <==> 1000 * cfg.ttl > 1000 * cfg.skew + cfg.delay
  {
    if 1000 * cfg.ttl > 1000 * cfg.skew + cfg.delay {
      forall now, events, a, b | AcceptedTwiceWith(Run(Init(now), events, cfg), a, b, ticket)
        ensures var s := Run(Init(now), events, cfg);
          s.checks[a].pc.set_ <= s.checks[b].pc.set_ ==> 1000 * ticket.timestamp > s.checks[a].pc.checked
      {
        PastTimestampIsSingleUse(now, events, cfg, a, b);
      }
    } else {
      MiddleToEdgeAcceptsTwice(cfg, ticket);
    }
  }

  /** The default settings, 300 seconds each, meet neither condition. */
  lemma DefaultsAreNotSingleUse(delay: nat, ticket: Ticket)
    ensures !SingleUse(Settings(300, 300, delay), ticket)
    ensures !PastSingleUse(Settings(300, 300, delay), ticket)
  {
    SingleUseIff(Settings(300, 300, delay), ticket);
    PastSingleUseIff(Settings(300, 300, delay), ticket);
  }
}
