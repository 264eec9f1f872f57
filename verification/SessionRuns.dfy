/**
 Signing sessions over whole runs of the middleware: what is stored when one is
 issued, how long it lives, and that a session issued to a logged-in client verifies
 that client's token only.
 */
module SessionRuns {
  import opened Wrappers
  import opened Strings
  import opened RedisStore
  import opened SignatureEncoding
  import opened ApiSignature
  import opened SignSession
  import Runs = SignatureRuns
  import NonceProtocol

  // ---------- what is issued ----------

  /** Main result: the stored record names the application and the sign key that the
      client was told. Issued to a client with valid claims and a bearer token, it
      holds the token's hash and the claims' user and site; otherwise it asks for no
      token. */
  lemma IssuedIsStored(st: Store, q: IssueRequest, lib: Library, id: nat)
    requires lib.Ok()
    ensures var (st', session) := IssueSession(st, q, lib, id, Fine);
      && session.Some? && SessionKey(session.value.keyId) in st'.keys
      && var e := st'.keys[SessionKey(session.value.keyId)];
        && e.value.Text? && lib.decode(e.value.s).Some?
        && var record := lib.decode(e.value.s).value;
          && record.secret == session.value.signKey == HexEncode(q.secretBytes)
          && record.appId == session.value.appId
          && (forall token :: IssuedFor(q, token) ==>
                record.tokenHash == HexEncode(lib.sha256(token)) && record.tokenHash != ""
                && record.userId == q.claims.value.userId && record.siteId == q.claims.value.siteId)
          && ((forall token :: !IssuedFor(q, token)) ==>
                record.tokenHash == "" && record.userId == 0 && record.siteId == 0)
  {
    BearerIsTrimmed(q.authorization);
    forall token | IssuedFor(q, token) ensures HexEncode(lib.sha256(token)) != "" { HexRoundTrip(lib.sha256(token)); }
    if q.claims.Some? && ExtractBearerToken(q.authorization).Some? {
      assert IssuedFor(q, ExtractBearerToken(q.authorization).value);
    }
  }

  lemma BearerIsTrimmed(header: string)
    ensures ExtractBearerToken(TrimSpace(header)) == ExtractBearerToken(header)
    ensures ExtractBearerToken(header).Some? ==> TrimSpace(header) != ""
  {
    TrimTwice(header);
  }

  /** The session lives for the configured time, or for ten minutes if less than one
      is configured, and the client is told so. */
  lemma SessionLives(st: Store, q: IssueRequest, lib: Library, id: nat)
    ensures var (st', session) := IssueSession(st, q, lib, id, Fine);
      && session.Some? && SessionKey(session.value.keyId) in st'.keys
      && session.value.expiresIn == (if q.ttlSeconds >= 60 then q.ttlSeconds else 600)
      && st'.keys[SessionKey(session.value.keyId)].expiry == Some(st.now + 1000 * session.value.expiresIn)
  {}

  /** The application is the first of these that is not blank: the request data's, the
      header's, the configured one, "default". */
  lemma AppIdOrder(q: IssueRequest)
    ensures var body := if q.bodyAppId.None? then "<nil>" else q.bodyAppId.value;
      && (TrimSpace(body) != "" ==> IssuedAppId(q) == TrimSpace(body))
      && (TrimSpace(body) == "" && TrimSpace(q.headerAppId) != "" ==> IssuedAppId(q) == TrimSpace(q.headerAppId))
      && (TrimSpace(body) == "" && TrimSpace(q.headerAppId) == "" ==>
            IssuedAppId(q) == if TrimSpace(q.defaultAppId) != "" then TrimSpace(q.defaultAppId) else "default")
  {}

  /** Different key ids have different session keys, and no session key is a nonce key. */
  lemma SessionKeysAreSeparate(keyId1: string, keyId2: string, scope: string, nonce: string)
    ensures SessionKey(keyId1) == SessionKey(keyId2) <==> keyId1 == keyId2
    ensures SessionKey(keyId1) != NonceProtocol.NonceKey(scope, nonce)
    ensures !NonceProtocol.IsNonceKey(SessionKey(keyId1))
  {
    assert SessionKey(keyId1)[17..] == keyId1 && SessionKey(keyId2)[17..] == keyId2;
    assert SessionKey(keyId1)[9] == 's' && NonceProtocol.NonceKey(scope, nonce)[9] == 'n';
  }

  /** Issuing a session leaves all others as they are. */
  lemma OtherSessionsStay(st: Store, q: IssueRequest, lib: Library, id: nat, onSet: Fault, keyId: string)
    requires keyId != HexEncode(q.keyBytes)
    ensures var st' := IssueSession(st, q, lib, id, onSet).0;
      && (SessionKey(keyId) in st.keys <==> SessionKey(keyId) in st'.keys)
      && (SessionKey(keyId) in st.keys ==> st.keys[SessionKey(keyId)] == st'.keys[SessionKey(keyId)])
  {
    SessionKeysAreSeparate(keyId, HexEncode(q.keyBytes), "", "");
  }

  // ---------- a bound session in every continuation ----------

  /** The request carries a token with the hash of the one the session was issued for. */
  predicate CarriesToken(r: Request, token: string, lib: Library) {
    ExtractBearerToken(r.authorization).Some?
    && lib.sha256(ExtractBearerToken(r.authorization).value) == lib.sha256(token)
  }

  predicate Names(r: Request, keyId: string) {
    TrimSpace(r.keyId) == keyId
  }

  /** A request that names the session and has passed its session check, or was
      verified, carries the token. */
  predicate Bound(call: Runs.Call, keyId: string, token: string, lib: Library) {
    Names(call.req, keyId) && (call.pc.Concluding? || (call.pc.Finished? && call.pc.verdict.Verified?)) ==>
      CarriesToken(call.req, token, lib)
  }

  ghost predicate AllBound(s: Runs.System, keyId: string, token: string, lib: Library) {
    forall id :: id in s.calls ==> Bound(s.calls[id], keyId, token, lib)
  }

  /** The key holds this record of the session. */
  predicate Holds(st: Store, keyId: string, record: Record, lib: Library) {
    SessionKey(keyId) in st.keys && st.keys[SessionKey(keyId)].value == Text(lib.encode(record))
  }

  /** Key ids are not used twice: nothing else is ever stored under this one. */
  predicate LeavesSession(ev: Runs.Event, keyId: string) {
    ev.Elsewhere? ==> ev.cmd.key != SessionKey(keyId)
  }

  lemma SameHashText(a: string, b: string, lib: Library)
    requires HexEncode(lib.sha256(a)) == HexEncode(lib.sha256(b))
    ensures lib.sha256(a) == lib.sha256(b)
  {
    HexRoundTrip(lib.sha256(a));
    HexRoundTrip(lib.sha256(b));
  }

  lemma EnteringIsBound(g: Runs.Gateway, s: Runs.System, id: nat, fault: Fault, keyId: string, token: string)
    requires id in s.calls && s.calls[id].pc.Entering? && keyId != ""
    ensures var s' := Runs.Advance(g, s, id, fault);
      s'.store == s.store && s'.calls == s.calls[id := s'.calls[id]] && Bound(s'.calls[id], keyId, token, g.lib)
  {
    Runs.EarlyMeansNotVerified(g, s.calls[id].req, s.store.now);
  }

  lemma LookUpIsBound(g: Runs.Gateway, s: Runs.System, id: nat, fault: Fault, keyId: string, record: Record, token: string)
    requires g.lib.Ok() && id in s.calls && s.calls[id].pc.LookingUp? && Holds(s.store, keyId, record, g.lib)
    requires record.tokenHash == HexEncode(g.lib.sha256(token)) && record.tokenHash != ""
    ensures var s' := Runs.Advance(g, s, id, fault);
      s'.store == s.store && s'.calls == s.calls[id := s'.calls[id]] && Bound(s'.calls[id], keyId, token, g.lib)
  {
    var r := s.calls[id].req;
    var reply := Issue(s.store, Get(SessionKey(TrimSpace(r.keyId))), id, fault, 0).1;
    var session := ParseSession(g.lib, reply);
    if Names(r, keyId) && SessionRefusal(r, session, g.lib).None? {
      assert session == Some(record);
      SameHashText(ExtractBearerToken(r.authorization).value, token, g.lib);
    }
  }

  lemma ConcludingIsBound(g: Runs.Gateway, s: Runs.System, id: nat, fault: Fault, keyId: string, record: Record, token: string)
    requires id in s.calls && s.calls[id].pc.Concluding? && Holds(s.store, keyId, record, g.lib)
    requires Bound(s.calls[id], keyId, token, g.lib)
    ensures var s' := Runs.Advance(g, s, id, fault);
      Holds(s'.store, keyId, record, g.lib) && s'.calls == s.calls[id := s'.calls[id]]
      && Bound(s'.calls[id], keyId, token, g.lib)
  {
    var c := s.calls[id];
    ConclusionLeavesSession(s.store, g.Cfg(), c.req, c.pc.who, g.lib, id, fault, keyId, record);
    assert s.calls[id := s.calls[id]] == s.calls;
  }

  lemma ConclusionLeavesSession(st: Store, cfg: Config, r: Request, who: Identity, lib: Library, id: nat, fault: Fault,
                                keyId: string, record: Record)
    requires Holds(st, keyId, record, lib)
    ensures Holds(Conclude(st, cfg, r, who, lib, id, fault).0, keyId, record, lib)
  {
    var nonceKey := NonceProtocol.NonceKey(who.scope, TrimSpace(r.nonce));
    SessionKeysAreSeparate(keyId, keyId, who.scope, TrimSpace(r.nonce));
    SetNxLeaves(st, nonceKey, 1000 * cfg.nonceTtlSeconds, id, fault, SessionKey(keyId));
  }

  lemma SetNxLeaves(st: Store, key: string, ttl: int, id: nat, fault: Fault, other: string)
    requires other != key && other in st.keys
    ensures var st' := Issue(st, SetNx(key, "1", ttl), id, fault, 0).0; other in st'.keys && st'.keys[other] == st.keys[other]
  {}

  lemma StepKeepsBound(g: Runs.Gateway, s: Runs.System, ev: Runs.Event, keyId: string, record: Record, token: string)
    requires g.lib.Ok() && keyId != "" && LeavesSession(ev, keyId)
    requires record.tokenHash == HexEncode(g.lib.sha256(token)) && record.tokenHash != ""
    requires Holds(s.store, keyId, record, g.lib) && AllBound(s, keyId, token, g.lib)
    ensures var s' := Runs.Step(g, s, ev); Holds(s'.store, keyId, record, g.lib) && AllBound(s', keyId, token, g.lib)
  {
    var s' := Runs.Step(g, s, ev);
    if ev.Act? && ev.id in s.calls {
      match s.calls[ev.id].pc
      case Entering => EnteringIsBound(g, s, ev.id, ev.fault, keyId, token);
      case LookingUp(_) => LookUpIsBound(g, s, ev.id, ev.fault, keyId, record, token);
      case Concluding(_, _) => ConcludingIsBound(g, s, ev.id, ev.fault, keyId, record, token);
      case Finished(_, _, _) =>
    }
    forall id | id in s'.calls ensures Bound(s'.calls[id], keyId, token, g.lib) {
      if id in s.calls && !(ev.Act? && ev.id == id) { assert Bound(s.calls[id], keyId, token, g.lib); }
    }
  }

  lemma {:induction false} RunKeepsBound(g: Runs.Gateway, s: Runs.System, events: seq<Runs.Event>, keyId: string, record: Record, token: string)
    requires g.lib.Ok() && keyId != "" && forall i :: 0 <= i < |events| ==> LeavesSession(events[i], keyId)
    requires record.tokenHash == HexEncode(g.lib.sha256(token)) && record.tokenHash != ""
    requires Holds(s.store, keyId, record, g.lib) && AllBound(s, keyId, token, g.lib)
    ensures var s' := Runs.Run(g, s, events); Holds(s'.store, keyId, record, g.lib) && AllBound(s', keyId, token, g.lib)
  {
    if events != [] {
      RunKeepsBound(g, s, events[..|events| - 1], keyId, record, token);
      StepKeepsBound(g, Runs.Run(g, s, events[..|events| - 1]), events[|events| - 1], keyId, record, token);
    }
  }

  /** Main result: a session issued to a client with valid claims and a bearer token
      verifies, in every run from then on, only requests that carry a token with the
      same hash. A request without a token, or with another, is never verified. */
  lemma OnlyItsTokenVerifies(g: Runs.Gateway, s: Runs.System, q: IssueRequest, issuer: nat, token: string,
                             events: seq<Runs.Event>, id: nat)
    requires g.lib.Ok() && q.keyBytes != [] && IssuedFor(q, token)
    requires var keyId := HexEncode(q.keyBytes);
      && (forall c :: c in s.calls && Names(s.calls[c].req, keyId) ==> s.calls[c].pc.Entering? || s.calls[c].pc.LookingUp?)
      && (forall i :: 0 <= i < |events| ==> LeavesSession(events[i], keyId))
    requires var s' := Runs.Run(g, s.(store := IssueSession(s.store, q, g.lib, issuer, Fine).0), events);
      Runs.IsVerified(s', id) && Names(s'.calls[id].req, HexEncode(q.keyBytes))
    ensures var s' := Runs.Run(g, s.(store := IssueSession(s.store, q, g.lib, issuer, Fine).0), events);
      CarriesToken(s'.calls[id].req, token, g.lib)
  {
    var keyId, record := HexEncode(q.keyBytes), IssuedRecord(q, g.lib);
    var s0 := s.(store := IssueSession(s.store, q, g.lib, issuer, Fine).0);
    HexIsTrimmed(q.keyBytes);
    IssueHolds(s.store, q, g.lib, issuer);
    RecordIsBound(q, g.lib, token);
    RunKeepsBound(g, s0, events, keyId, record, token);
    assert Bound(Runs.Run(g, s0, events).calls[id], keyId, token, g.lib);
  }

  lemma IssueHolds(st: Store, q: IssueRequest, lib: Library, id: nat)
    ensures Holds(IssueSession(st, q, lib, id, Fine).0, HexEncode(q.keyBytes), IssuedRecord(q, lib), lib)
  {}

  lemma RecordIsBound(q: IssueRequest, lib: Library, token: string)
    requires lib.Ok() && IssuedFor(q, token)
    ensures var record := IssuedRecord(q, lib);
      record.tokenHash == HexEncode(lib.sha256(token)) && record.tokenHash != ""
  {
    BearerIsTrimmed(q.authorization);
    HexRoundTrip(lib.sha256(token));
  }
}
