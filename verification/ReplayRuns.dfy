/**
 Exactly when the signature middleware verifies a request once only. Whatever the
 request, a nonce that does not last long enough gives a run of the middleware in
 which the same request, signed and well formed, is verified twice.
 */
module ReplayRuns {
  import opened Wrappers
  import opened Strings
  import opened RedisStore
  import opened SignaturePayload
  import opened SignatureEncoding
  import opened ApiSignature
  import opened SignatureRuns
  import SignSession
  import NonceProtocol

  // ---------- requests that are verified at the right time ----------

  /** A session that binds no application and no token. */
  const SESSION: Record := Record("", "key", "", 0, 0)

  predicate Keyed(r: Request) {
    TrimSpace(r.keyId) != ""
  }

  function Who(g: Gateway, r: Request): Identity {
    Identify(g.Cfg(), r, if Keyed(r) then Some(SESSION) else None)
  }

  /** The signature check applies, nonce and timestamp have the required form, and
      without a session the application has a secret. */
  predicate WellFormed(g: Gateway, r: Request) {
    && SignSession.InForce(g.raw, r)
    && NonceMatches(TrimSpace(r.nonce)) && ParseUnixTimestamp(TrimSpace(r.timestamp)).Some?
    && (!Keyed(r) ==> !HasPrefix(r.path, "/api/frontend/") && Who(g, r).secret != "")
  }

  /** The request with the right signature. */
  function Signed(g: Gateway, r: Request): Request {
    r.(sign := HexEncode(g.lib.hmac(Who(g, r).secret, SignedText(r, g.lib))))
  }

  /** The session of a keyed request lives at least until the given time. */
  predicate SessionLasts(g: Gateway, st: Store, r: Request, until: int) {
    Keyed(r) ==>
      var key := SessionKey(TrimSpace(r.keyId));
      key in st.keys && st.keys[key].value == Text(g.lib.encode(SESSION))
      && st.keys[key].expiry.Some? && until < st.keys[key].expiry.value
  }

  lemma SignedIsWellFormed(g: Gateway, r: Request)
    requires g.lib.Ok() && WellFormed(g, r)
    ensures var q := Signed(g, r);
      && WellFormed(g, q) && Alike(g, q, r) && Who(g, q) == Who(g, r) && SignedText(q, g.lib) == SignedText(r, g.lib)
      && TrimSpace(q.sign) == q.sign && q.sign != "" && Who(g, q).secret != ""
  {
    SignSession.HexIsTrimmed(g.lib.hmac(Who(g, r).secret, SignedText(r, g.lib)));
  }

  // ---------- one request ----------

  ghost predicate Leads(g: Gateway, s: System, s': System) {
    exists events :: Run(g, s, events) == s'
  }

  lemma StepLeads(g: Gateway, s: System, ev: Event)
    ensures Leads(g, s, Step(g, s, ev))
  {
    assert [ev][..0] == [];
    assert Run(g, s, []) == s;
    assert Run(g, s, [ev]) == Step(g, s, ev);
  }

  lemma {:induction false} RunTwice(g: Gateway, s: System, first: seq<Event>, second: seq<Event>)
    ensures Run(g, s, first + second) == Run(g, Run(g, s, first), second)
  {
    if second == [] {
      assert first + second == first;
    } else {
      var shorter := second[..|second| - 1];
      assert (first + second)[..|first + second| - 1] == first + shorter;
      RunTwice(g, s, first, shorter);
    }
  }

  lemma LeadsOn(g: Gateway, s: System, s1: System, s2: System)
    requires Leads(g, s, s1) && Leads(g, s1, s2)
    ensures Leads(g, s, s2)
  {
    var first :| Run(g, s, first) == s1;
    var second :| Run(g, s1, second) == s2;
    RunTwice(g, s, first, second);
  }

  /** A request that has arrived passes its window check ... */
  lemma PassesWindow(g: Gateway, s: System, id: nat)
    requires id in s.calls && s.calls[id].pc.Entering?
    requires var r := s.calls[id].req;
      WellFormed(g, r) && TrimSpace(r.sign) != "" && NonceProtocol.InWindow(s.store.now, Timestamp(r), g.Settings().skew)
    ensures var r, now := s.calls[id].req, s.store.now;
      Step(g, s, Act(id, Fine)) == s.(calls := s.calls[id :=
        Call(r, if Keyed(r) then LookingUp(now) else Concluding(now, Who(g, r)))])
  {
    SignSession.EarlyChecksPass(g.raw, s.calls[id].req, s.store.now);
  }

  /** ... finds its session ... */
  lemma FindsSession(g: Gateway, s: System, id: nat)
    requires g.lib.Ok() && id in s.calls && s.calls[id].pc.LookingUp?
    requires Keyed(s.calls[id].req) && SessionLasts(g, s.store, s.calls[id].req, s.store.now)
    ensures var r := s.calls[id].req;
      Step(g, s, Act(id, Fine)) == s.(calls := s.calls[id := Call(r, Concluding(s.calls[id].pc.checked, Who(g, r)))])
  {
    assert SessionRefusal(s.calls[id].req, Some(SESSION), g.lib) == None;
  }

  lemma ReachesConclusion(g: Gateway, s: System, id: nat) returns (s': System)
    requires g.lib.Ok() && id in s.calls && s.calls[id].pc.Entering?
    requires var r := s.calls[id].req;
      && WellFormed(g, r) && TrimSpace(r.sign) != "" && NonceProtocol.InWindow(s.store.now, Timestamp(r), g.Settings().skew)
      && SessionLasts(g, s.store, r, s.store.now)
    ensures Leads(g, s, s')
    ensures var r := s.calls[id].req; s' == s.(calls := s.calls[id := Call(r, Concluding(s.store.now, Who(g, r)))])
  {
    PassesWindow(g, s, id);
    StepLeads(g, s, Act(id, Fine));
    s' := Step(g, s, Act(id, Fine));
    if Keyed(s.calls[id].req) {
      var s1 := s';
      FindsSession(g, s1, id);
      StepLeads(g, s1, Act(id, Fine));
      s' := Step(g, s1, Act(id, Fine));
      LeadsOn(g, s, s1, s');
    }
  }

  /** ... and is verified if its nonce is free. */
  lemma IsVerifiedThen(g: Gateway, s: System, id: nat, r: Request, checked: int) returns (s': System)
    requires g.lib.Ok() && WellFormed(g, r) && g.Settings().ttl > 0
    requires id in s.calls && s.calls[id] == Call(Signed(g, r), Concluding(checked, Who(g, r)))
    requires s.store.now <= checked + g.delay
    requires !Live(s.store, NonceProtocol.NonceKey(Scope(g, r), TrimSpace(r.nonce)))
    ensures Leads(g, s, s') && IsVerified(s', id)
    ensures s'.calls == s.calls[id := Call(Signed(g, r), Finished(s'.calls[id].pc.verdict, checked, s.store.now))]
    ensures NonceTaken(g, s.store, s'.store, r)
  {
    var st, verdict := ConclusionVerifies(g, s.store, r, id);
    s' := ConcludingStep(g, s, id, st, verdict);
  }

  lemma ConclusionVerifies(g: Gateway, st: Store, r: Request, id: nat) returns (st': Store, verdict: Verdict)
    requires g.lib.Ok() && WellFormed(g, r)
    requires !Live(st, NonceProtocol.NonceKey(Scope(g, r), TrimSpace(r.nonce)))
    ensures (st', verdict) == Conclude(st, g.Cfg(), Signed(g, r), Who(g, r), g.lib, id, Fine)
    ensures verdict.Verified? && NonceTaken(g, st, st', r)
  {
    SignedIsWellFormed(g, r);
    SignSession.LastChecksPass(st, g.Cfg(), Signed(g, r), Who(g, r), g.lib, id);
    ConclusionTakesNonce(g, st, r, id);
    var result := Conclude(st, g.Cfg(), Signed(g, r), Who(g, r), g.lib, id, Fine);
    st', verdict := result.0, result.1;
  }

  lemma ConcludingStep(g: Gateway, s: System, id: nat, st: Store, verdict: Verdict) returns (s': System)
    requires id in s.calls && s.calls[id].pc.Concluding? && s.store.now <= s.calls[id].pc.checked + g.delay
    requires (st, verdict) == Conclude(s.store, g.Cfg(), s.calls[id].req, s.calls[id].pc.who, g.lib, id, Fine)
    ensures Leads(g, s, s')
    ensures var c := s.calls[id];
      s' == System(st, s.calls[id := Call(c.req, Finished(verdict, c.pc.checked, s.store.now))])
  {
    s' := Step(g, s, Act(id, Fine));
    StepLeads(g, s, Act(id, Fine));
  }

  /** The nonce key lives for the configured time, and no session key changed. */
  ghost predicate NonceTaken(g: Gateway, st: Store, st': Store, r: Request) {
    var key := NonceProtocol.NonceKey(Scope(g, r), TrimSpace(r.nonce));
    && st'.now == st.now && key in st'.keys && st'.keys[key].expiry == Some(st.now + 1000 * g.Settings().ttl)
    && (forall until :: SessionLasts(g, st, r, until) ==> SessionLasts(g, st', r, until))
  }

  lemma ConclusionTakesNonce(g: Gateway, st: Store, r: Request, id: nat)
    requires !Live(st, NonceProtocol.NonceKey(Scope(g, r), TrimSpace(r.nonce)))
    requires Conclude(st, g.Cfg(), Signed(g, r), Who(g, r), g.lib, id, Fine).1.Verified?
    ensures NonceTaken(g, st, Conclude(st, g.Cfg(), Signed(g, r), Who(g, r), g.lib, id, Fine).0, r)
  {
    SetTakesNonce(g, st, r, id);
  }

  lemma SetTakesNonce(g: Gateway, st: Store, r: Request, id: nat)
    requires !Live(st, NonceProtocol.NonceKey(Scope(g, r), TrimSpace(r.nonce)))
    ensures var key := NonceProtocol.NonceKey(Scope(g, r), TrimSpace(r.nonce));
      NonceTaken(g, st, Issue(st, SetNx(key, "1", 1000 * g.Settings().ttl), id, Fine, 0).0, r)
  {
    var nonceKey, sessionKey := NonceProtocol.NonceKey(Scope(g, r), TrimSpace(r.nonce)), SessionKey(TrimSpace(r.keyId));
    assert nonceKey[9] == 'n' && sessionKey[9] == 's';
  }

  // ---------- the same request twice ----------

  /** If the request is in its window now and after a wait, and the nonce does not
      outlast the second SET NX, the request is verified twice. */
  lemma BothAreVerified(g: Gateway, now: int, r: Request, wait: nat, late: nat) returns (s: System)
    requires g.lib.Ok() && g.Settings().Ok() && WellFormed(g, r)
    requires late <= g.delay && 1000 * g.Settings().ttl <= wait + late
    requires NonceProtocol.InWindow(now, Timestamp(r), g.Settings().skew)
    requires NonceProtocol.InWindow(now + wait, Timestamp(r), g.Settings().skew)
    ensures Leads(g, Init(now), s) && VerifiedTwiceAs(g, s, 1, 2, r)
    ensures s.calls[1].pc.checked == s.calls[1].pc.at == now
    ensures s.calls[2].pc.checked == now + wait && s.calls[2].pc.at == now + wait + late
  {
    var s0 := HasSession(g, now, r, wait + late);
    var s1 := FirstIsVerified(g, s0, r, now + wait);
    var s2 := SecondIsVerified(g, s1, r, wait, late);
    LeadsOn(g, Init(now), s0, s1);
    LeadsOn(g, Init(now), s1, s2);
    SignedIsWellFormed(g, r);
    s := s2;
  }

  lemma HasSession(g: Gateway, now: int, r: Request, last: nat) returns (s: System)
    ensures Leads(g, Init(now), s) && s.store.now == now && s.calls == map[]
    ensures SessionLasts(g, s.store, r, now + last)
    ensures !Live(s.store, NonceProtocol.NonceKey(Scope(g, r), TrimSpace(r.nonce)))
  {
    var nonceKey, sessionKey := NonceProtocol.NonceKey(Scope(g, r), TrimSpace(r.nonce)), SessionKey(TrimSpace(r.keyId));
    assert nonceKey[9] == 'n' && sessionKey[9] == 's';
    var ev := if Keyed(r) then Elsewhere(SetEx(sessionKey, g.lib.encode(SESSION), last + 1), 0, Fine) else Tick(0);
    s := Step(g, Init(now), ev);
    StepLeads(g, Init(now), ev);
  }

  lemma FirstIsVerified(g: Gateway, s: System, r: Request, until: int) returns (s': System)
    requires g.lib.Ok() && g.Settings().Ok() && WellFormed(g, r) && s.calls == map[]
    requires NonceProtocol.InWindow(s.store.now, Timestamp(r), g.Settings().skew)
    requires SessionLasts(g, s.store, r, until) && s.store.now <= until
    requires !Live(s.store, NonceProtocol.NonceKey(Scope(g, r), TrimSpace(r.nonce)))
    ensures Leads(g, s, s') && NonceTaken(g, s.store, s'.store, r)
    ensures s'.calls.Keys == {1} && IsVerified(s', 1) && s'.calls[1].req == Signed(g, r)
    ensures s'.calls[1].pc.checked == s'.calls[1].pc.at == s.store.now
  {
    SignedIsWellFormed(g, r);
    var s1 := Step(g, s, Arrive(1, Signed(g, r)));
    StepLeads(g, s, Arrive(1, Signed(g, r)));
    var s2 := ReachesConclusion(g, s1, 1);
    s' := IsVerifiedThen(g, s2, 1, r, s.store.now);
    LeadsOn(g, s, s1, s2);
    LeadsOn(g, s, s2, s');
  }

  lemma SecondIsVerified(g: Gateway, s: System, r: Request, wait: nat, late: nat) returns (s': System)
    requires g.lib.Ok() && g.Settings().Ok() && WellFormed(g, r) && s.calls.Keys == {1}
    requires NonceProtocol.InWindow(s.store.now + wait, Timestamp(r), g.Settings().skew)
    requires SessionLasts(g, s.store, r, s.store.now + wait) && late <= g.delay
    requires var key := NonceProtocol.NonceKey(Scope(g, r), TrimSpace(r.nonce));
      key in s.store.keys && s.store.keys[key].expiry.Some? && s.store.keys[key].expiry.value <= s.store.now + wait + late
    ensures Leads(g, s, s') && 1 in s'.calls && s'.calls[1] == s.calls[1]
    ensures IsVerified(s', 2) && s'.calls[2].req == Signed(g, r)
    ensures s'.calls[2].pc.checked == s.store.now + wait && s'.calls[2].pc.at == s.store.now + wait + late
  {
    SignedIsWellFormed(g, r);
    var s1 := Waits(g, s, wait);
    var s2 := Step(g, s1, Arrive(2, Signed(g, r)));
    StepLeads(g, s1, Arrive(2, Signed(g, r)));
    var s3 := ReachesConclusion(g, s2, 2);
    var s4 := Waits(g, s3, late);
    s' := IsVerifiedThen(g, s4, 2, r, s1.store.now);
    LeadsOn(g, s, s1, s2);
    LeadsOn(g, s, s2, s3);
    LeadsOn(g, s, s3, s4);
    LeadsOn(g, s, s4, s');
  }

  lemma Waits(g: Gateway, s: System, ms: nat) returns (s': System)
    ensures Leads(g, s, s') && s' == s.(store := s.store.(now := s.store.now + ms))
  {
    s' := Step(g, s, Tick(ms));
    StepLeads(g, s, Tick(ms));
  }

  // ---------- results ----------

  predicate VerifiedTwiceAs(g: Gateway, s: System, a: nat, b: nat, r: Request) {
    VerifiedTwice(g, s, a, b) && Alike(g, s.calls[a].req, r)
  }

  /** No run that starts less than 2^63 nanoseconds before the timestamp verifies two
      requests with this one's scope, nonce and timestamp. */
  ghost predicate SingleUse(g: Gateway, r: Request) {
    forall now, events, a, b :: NonceProtocol.NotFarFuture(now, Timestamp(r)) ==>
      !VerifiedTwiceAs(g, Run(g, Init(now), events), a, b, r)
  }

  /** No run verifies a second one after a first whose timestamp was not ahead. */
  ghost predicate PastSingleUse(g: Gateway, r: Request) {
    forall now, events, a, b :: VerifiedTwiceAs(g, Run(g, Init(now), events), a, b, r) ==>
      var s := Run(g, Init(now), events);
      s.calls[a].pc.at <= s.calls[b].pc.at ==> 1000 * Timestamp(r) > s.calls[a].pc.checked
  }

  /** Main result: whatever well-formed request a client sends, the middleware
      verifies it once only, in every run, if and only if the nonce is kept longer
      than the whole window plus the delay. */
  lemma SingleUseIff(g: Gateway, r: Request)
    requires g.lib.Ok() && g.Settings().Ok() && WellFormed(g, r)
    ensures SingleUse(g, r) <==> 1000 * g.Settings().ttl > 2000 * g.Settings().skew + g.delay
  {
    var skew := g.Settings().skew;
    if 1000 * g.Settings().ttl > 2000 * skew + g.delay {
      forall now, events, a, b | NonceProtocol.NotFarFuture(now, Timestamp(r))
        ensures !VerifiedTwiceAs(g, Run(g, Init(now), events), a, b, r)
      {
        VerifiedOnce(g, now, events, a, b);
      }
    } else {
      var now := 1000 * Timestamp(r) - 1000 * skew;
      NonceProtocol.InWindowIff(now, Timestamp(r), skew);
      NonceProtocol.InWindowIff(now + 2000 * skew, Timestamp(r), skew);
      var s := BothAreVerified(g, now, r, 2000 * skew, g.delay);
      var events :| Run(g, Init(now), events) == s;
      assert NonceProtocol.NotFarFuture(now, Timestamp(r));
    }
  }

  /** Main result: if only requests that are not ahead at first matter, a lifetime
      above the skew plus the delay is necessary and sufficient. */
  lemma PastSingleUseIff(g: Gateway, r: Request)
    requires g.lib.Ok() && g.Settings().Ok() && WellFormed(g, r)
    ensures PastSingleUse(g, r) <==> 1000 * g.Settings().ttl > 1000 * g.Settings().skew + g.delay
  {
    var skew := g.Settings().skew;
    if 1000 * g.Settings().ttl > 1000 * skew + g.delay {
      forall now, events, a, b | VerifiedTwiceAs(g, Run(g, Init(now), events), a, b, r)
        ensures var s := Run(g, Init(now), events);
          s.calls[a].pc.at <= s.calls[b].pc.at ==> 1000 * Timestamp(r) > s.calls[a].pc.checked
      {
        PastVerifiedOnce(g, now, events, a, b);
      }
    } else {
      var now := 1000 * Timestamp(r);
      NonceProtocol.InWindowIff(now, Timestamp(r), skew);
      NonceProtocol.InWindowIff(now + 1000 * skew, Timestamp(r), skew);
      var s := BothAreVerified(g, now, r, 1000 * skew, g.delay);
      var events :| Run(g, Init(now), events) == s;
    }
  }

  /** With the default settings, 300 seconds each, every well-formed request can be
      verified twice, even one whose timestamp was not ahead. */
  lemma DefaultsAreNotSingleUse(g: Gateway, r: Request)
    requires g.lib.Ok() && g.delay >= 0 && WellFormed(g, r)
    requires g.raw.skewSeconds <= 0 && g.raw.nonceTtlSeconds <= 0
    ensures !SingleUse(g, r) && !PastSingleUse(g, r)
  {
    SingleUseIff(g, r);
    PastSingleUseIff(g, r);
  }

  /** For every lifetime, a request whose timestamp is 2^63 nanoseconds ahead, now and
      when its nonce has expired, is verified twice in some run. */
  lemma FarFutureIsVerifiedTwice(g: Gateway, now: int, r: Request)
    requires g.lib.Ok() && g.Settings().Ok() && WellFormed(g, r)
    requires !NonceProtocol.NotFarFuture(now + 1000 * g.Settings().ttl, Timestamp(r))
    ensures exists events :: VerifiedTwiceAs(g, Run(g, Init(now), events), 1, 2, r)
  {
    var ttl, skew := g.Settings().ttl, g.Settings().skew;
    NonceProtocol.InWindowIff(now, Timestamp(r), skew);
    NonceProtocol.InWindowIff(now + 1000 * ttl, Timestamp(r), skew);
    var s := BothAreVerified(g, now, r, 1000 * ttl, 0);
    var events :| Run(g, Init(now), events) == s;
  }
}
