/**
 Issuing a signing session, and what a client may rely on afterwards: whoever
 signs with the issued key is verified, and a signature fits one request only.
 */
module SignSession {
  import opened Wrappers
  import opened Strings
  import opened RedisStore
  import opened SignaturePayload
  import opened SignatureEncoding
  import opened ApiSignature
  import NonceProtocol

  datatype Claims = Claims(userId: int, siteId: int)

  /** What the handler gets: the app_id of the request data if there is one, two
      headers, two settings, the random bytes, and the claims of the token if it
      is valid. */
  datatype IssueRequest = IssueRequest(bodyAppId: Option<string>, headerAppId: string, authorization: string,
                                       defaultAppId: string, ttlSeconds: int,
                                       keyBytes: seq<Byte>, secretBytes: seq<Byte>, claims: Option<Claims>)

  datatype Session = Session(keyId: string, signKey: string, appId: string, expiresIn: int)

  /** A missing app_id prints as "<nil>", which is not blank. */
  function IssuedAppId(q: IssueRequest): string {
    var body := TrimSpace(if q.bodyAppId.None? then "<nil>" else q.bodyAppId.value);
    var header := TrimSpace(q.headerAppId);
    var fallback := TrimSpace(q.defaultAppId);
    if body != "" then body
    else if header != "" then header
    else if fallback != "" then fallback
    else "default"
  }

  function IssuedRecord(q: IssueRequest, lib: Library): Record {
    var token := ExtractBearerToken(TrimSpace(q.authorization));
    if TrimSpace(q.authorization) != "" && q.claims.Some? && token.Some? then
      Record(IssuedAppId(q), HexEncode(q.secretBytes), Sha256Hex(lib, token.value), q.claims.value.userId, q.claims.value.siteId)
    else
      Record(IssuedAppId(q), HexEncode(q.secretBytes), "", 0, 0)
  }

  function SessionTtl(q: IssueRequest): int {
    if q.ttlSeconds < 60 then 600 else q.ttlSeconds
  }

  function IssueSession(st: Store, q: IssueRequest, lib: Library, id: nat, onSet: Fault): (Store, Option<Session>) {
    var keyId := HexEncode(q.keyBytes);
    var (st', reply) := Issue(st, SetEx(SessionKey(keyId), lib.encode(IssuedRecord(q, lib)), 1000 * SessionTtl(q)), id, onSet, 0);
    if reply.Err? then (st', None)
    else (st', Some(Session(keyId, HexEncode(q.secretBytes), IssuedAppId(q), SessionTtl(q))))
  }

  method Handler(redis: Redis, q: IssueRequest, lib: Library, id: nat, onSet: Fault) returns (session: Option<Session>)
    modifies redis
    ensures (redis.store, session) == IssueSession(old(redis.store), q, lib, id, onSet)
  {
    var appId := TrimSpace(if q.bodyAppId.None? then "<nil>" else q.bodyAppId.value);
    if appId == "" {
      appId := TrimSpace(q.headerAppId);
    }
    if appId == "" {
      appId := TrimSpace(q.defaultAppId);
    }
    if appId == "" {
      appId := "default";
    }
    var ttlSeconds := if q.ttlSeconds < 60 then 600 else q.ttlSeconds;
    var keyId, signKey := HexEncode(q.keyBytes), HexEncode(q.secretBytes);
    var payload := Record(appId, signKey, "", 0, 0);
    var authHeader := TrimSpace(q.authorization);
    if authHeader != "" && q.claims.Some? {
      var token := ExtractBearerToken(authHeader);
      if token.Some? {
        payload := payload.(tokenHash := Sha256Hex(lib, token.value), userId := q.claims.value.userId, siteId := q.claims.value.siteId);
      }
    }
    var reply := redis.Do(SetEx(SessionKey(keyId), lib.encode(payload), 1000 * ttlSeconds), id, onSet, 0);
    if reply.Err? {
      return None;
    }
    return Some(Session(keyId, signKey, appId, ttlSeconds));
  }

  // ---------- the issued texts ----------

  lemma HexIsTrimmed(b: seq<Byte>)
    requires b != []
    ensures TrimSpace(HexEncode(b)) == HexEncode(b) && HexEncode(b) != ""
  {
    HexRoundTrip(b);
    NoSpaceMeansTrimmed(HexEncode(b));
  }

  lemma IssuedAppIdIsTrimmed(q: IssueRequest)
    ensures TrimSpace(IssuedAppId(q)) == IssuedAppId(q) && IssuedAppId(q) != ""
  {
    TrimSpaceTrims(if q.bodyAppId.None? then "<nil>" else q.bodyAppId.value);
    TrimSpaceTrims(q.headerAppId);
    TrimSpaceTrims(q.defaultAppId);
    TrimSpaceTrims(IssuedAppId(q));
  }

  lemma TrimTwice(s: string)
    ensures TrimSpace(TrimSpace(s)) == TrimSpace(s)
  {
    TrimSpaceTrims(s);
    TrimSpaceTrims(TrimSpace(s));
  }

  /** The X-App-Id header names the session's application only if the request data
      has an app_id and that is blank; a missing app_id gives "<nil>". */
  lemma HeaderAppIdIff(q: IssueRequest)
    ensures (forall h :: TrimSpace(h) != "" ==> IssuedAppId(q.(headerAppId := h)) == TrimSpace(h))
            <==> q.bodyAppId.Some? && TrimSpace(q.bodyAppId.value) == ""
    ensures q.bodyAppId.None? ==> IssuedAppId(q) == "<nil>"
  {
    TrimSpaceTrims("<nil>");
    if !(q.bodyAppId.Some? && TrimSpace(q.bodyAppId.value) == "") {
      var body := IssuedAppId(q);
      var other := if body == "x" then "y" else "x";
      TrimSpaceTrims(other);
      assert IssuedAppId(q.(headerAppId := other)) == body != TrimSpace(other);
    }
  }

  // ---------- completeness ----------

  /** The signature check is in force for this request. */
  predicate InForce(cfg: Config, r: Request) {
    && cfg.enabled && r.verb != "OPTIONS" && !HasPrefix(r.contentType, "multipart/form-data")
    && !ShouldSkipPath(r.path, cfg.skipPaths) && !r.devHost
  }

  /** The client was logged in with this token when the session was issued. */
  predicate IssuedFor(q: IssueRequest, token: string) {
    q.claims.Some? && ExtractBearerToken(q.authorization) == Some(token)
  }

  /** The client does what the protocol asks: it names the session, echoes or omits
      the application, repeats the token if the session was issued for one, and signs
      the canonical text. */
  predicate Follows(r: Request, session: Session, q: IssueRequest, lib: Library) {
    && r.keyId == session.keyId
    && (r.appId == "" || r.appId == session.appId)
    && RepeatsToken(r, q)
    && IsEncodingOf(r.sign, lib.hmac(session.signKey, SignedText(r, lib)))
  }

  predicate RepeatsToken(r: Request, q: IssueRequest) {
    q.claims.Some? && ExtractBearerToken(q.authorization).Some? ==>
      ExtractBearerToken(r.authorization) == ExtractBearerToken(q.authorization)
  }

  predicate Timely(cfg: Config, r: Request, now: int) {
    var t := ParseUnixTimestamp(TrimSpace(r.timestamp));
    t.Some? && NonceMatches(TrimSpace(r.nonce)) && NonceProtocol.InWindow(now, t.value, LoadConfig(cfg).skewSeconds)
  }

  lemma EarlyChecksPass(cfg: Config, r: Request, now: int)
    requires InForce(cfg, r) && Timely(cfg, r, now) && TrimSpace(r.sign) != ""
    requires TrimSpace(r.keyId) != "" || !HasPrefix(r.path, "/api/frontend/")
    ensures Precheck(LoadConfig(cfg), r, now) == None
  {
    assert !ParseInt64("").Some?;
  }

  lemma SessionChecksPass(cfg: Config, r: Request, q: IssueRequest, lib: Library, session: Session)
    requires q.secretBytes != [] && session.appId == IssuedAppId(q)
    requires r.appId == "" || r.appId == session.appId
    requires RepeatsToken(r, q)
    ensures SessionRefusal(r, Some(IssuedRecord(q, lib)), lib) == None
    ensures Identify(cfg, r, Some(IssuedRecord(q, lib)))
         == Identity(HexEncode(q.secretBytes), "sid:" + TrimSpace(r.keyId), session.appId)
  {
    HexIsTrimmed(q.secretBytes);
    IssuedAppIdIsTrimmed(q);
    TrimTwice(q.authorization);
    TrimSpaceTrims("");
  }

  lemma OkReads(appId: string, keyId: string)
    ensures NonceVerdict(Found(Text("OK")), appId, keyId) == Verified(appId, keyId)
  {
    TrimSpaceTrims("OK");
    assert ToUpper("OK") == "OK";
  }

  /** The last two checks pass for a right signature and a fresh nonce. */
  lemma LastChecksPass(st: Store, cfg: Config, r: Request, who: Identity, lib: Library, id: nat)
    requires lib.Ok() && who.secret != "" && IsEncodingOf(r.sign, lib.hmac(who.secret, SignedText(r, lib)))
    requires !Live(st, NonceProtocol.NonceKey(who.scope, TrimSpace(r.nonce)))
    ensures Conclude(st, cfg, r, who, lib, id, Fine).1 == Verified(who.appId, TrimSpace(r.keyId))
  {
    AllEncodingsAccepted(r.sign, lib.hmac(who.secret, SignedText(r, lib)));
    OkReads(who.appId, TrimSpace(r.keyId));
  }

  /** What the server returns for an issued session that is still live. */
  lemma IssuedRecordIsRead(st0: Store, q: IssueRequest, lib: Library, id: nat, st: Store, id': nat)
    requires lib.Ok()
    requires var key := SessionKey(HexEncode(q.keyBytes));
      Live(st, key) && st.keys[key].value == IssueSession(st0, q, lib, id, Fine).0.keys[key].value
    ensures Serve(st, Get(SessionKey(HexEncode(q.keyBytes))), id', 0).0 == st
    ensures ParseSession(lib, Serve(st, Get(SessionKey(HexEncode(q.keyBytes))), id', 0).1) == Some(IssuedRecord(q, lib))
  {}

  /** Main result: a client that follows the protocol with an issued session is
      verified, in any of the three encodings, while the session is live, the
      timestamp is in its window and the nonce is unused. */
  lemma IssuedSessionVerifies(st0: Store, q: IssueRequest, lib: Library, id: nat, session: Session,
                              st: Store, cfg: Config, r: Request, id': nat)
    requires lib.Ok() && |q.keyBytes| == 16 && |q.secretBytes| == 32
    requires IssueSession(st0, q, lib, id, Fine).1 == Some(session)
    requires var key := SessionKey(session.keyId);
      Live(st, key) && st.keys[key].value == IssueSession(st0, q, lib, id, Fine).0.keys[key].value
    requires InForce(cfg, r) && Follows(r, session, q, lib) && Timely(cfg, r, st.now)
    requires !Live(st, NonceProtocol.NonceKey("sid:" + session.keyId, TrimSpace(r.nonce)))
    ensures Verify(st, cfg, r, lib, id', Fine, Fine).1 == Verified(session.appId, session.keyId)
  {
    var who := Identity(session.signKey, "sid:" + session.keyId, session.appId);
    HexIsTrimmed(q.keyBytes);
    HexIsTrimmed(q.secretBytes);
    AllEncodingsAccepted(r.sign, lib.hmac(session.signKey, SignedText(r, lib)));
    EarlyChecksPass(cfg, r, st.now);
    SessionChecksPass(LoadConfig(cfg), r, q, lib, session);
    IssuedRecordIsRead(st0, q, lib, id, st, id');
    LastChecksPass(st, LoadConfig(cfg), r, who, lib, id');
  }

  // ---------- soundness ----------

  /** The secret and nonce scope that `Verify` uses for a request. */
  function UsedIdentity(st: Store, raw: Config, r: Request, lib: Library): Identity {
    var keyId := TrimSpace(r.keyId);
    Identify(LoadConfig(raw), r,
      if keyId == "" then None else ParseSession(lib, Serve(st, Get(SessionKey(keyId)), 0, 0).1))
  }

  predicate IsVerified(st: Store, cfg: Config, r: Request, lib: Library, id: nat) {
    Verify(st, cfg, r, lib, id, Fine, Fine).1.Verified?
  }

  /** The nonce command is answered OK only when it takes a nonce that was free. */
  lemma OkTakesTheNonce(st: Store, key: string, ttl: int, id: nat, appId: string, keyId: string)
    requires ttl > 0
    requires NonceVerdict(Issue(st, SetNx(key, "1", 1000 * ttl), id, Fine, 0).1, appId, keyId).Verified?
    ensures !Live(st, key) && Live(Issue(st, SetNx(key, "1", 1000 * ttl), id, Fine, 0).0, key)
  {}

  lemma ConcludedMeans(st: Store, cfg: Config, r: Request, who: Identity, lib: Library, id: nat)
    requires cfg.nonceTtlSeconds > 0
    requires Conclude(st, cfg, r, who, lib, id, Fine).1.Verified?
    ensures DecodeSignature(TrimSpace(r.sign)) == Some(lib.hmac(who.secret, SignedText(r, lib)))
    ensures var nonceKey := NonceProtocol.NonceKey(who.scope, TrimSpace(r.nonce));
      !Live(st, nonceKey) && Live(Conclude(st, cfg, r, who, lib, id, Fine).0, nonceKey)
  {
    var nonceKey := NonceProtocol.NonceKey(who.scope, TrimSpace(r.nonce));
    SignatureEqualIff(TrimSpace(r.sign), lib.hmac(who.secret, SignedText(r, lib)));
    OkTakesTheNonce(st, nonceKey, cfg.nonceTtlSeconds, id, who.appId, TrimSpace(r.keyId));
  }

  /** A verified request went through the early checks, and to the last two with
      the identity it used. */
  lemma VerifiedIsConcluded(st: Store, cfg: Config, r: Request, lib: Library, id: nat)
    requires IsVerified(st, cfg, r, lib, id)
    ensures Precheck(LoadConfig(cfg), r, st.now) == None
    ensures Verify(st, cfg, r, lib, id, Fine, Fine)
         == Conclude(st, LoadConfig(cfg), r, UsedIdentity(st, cfg, r, lib), lib, id, Fine)
  {}

  /** Verified means: the signature decodes to the MAC of the canonical text under
      the secret in use, the timestamp and nonce are well formed, the nonce was
      unused, and it is taken afterwards. */
  lemma VerifiedMeans(st: Store, cfg: Config, r: Request, lib: Library, id: nat)
    requires IsVerified(st, cfg, r, lib, id)
    ensures var who := UsedIdentity(st, cfg, r, lib);
      && Timely(cfg, r, st.now)
      && DecodeSignature(TrimSpace(r.sign)) == Some(lib.hmac(who.secret, SignedText(r, lib)))
      && var nonceKey := NonceProtocol.NonceKey(who.scope, TrimSpace(r.nonce));
         !Live(st, nonceKey) && Live(Verify(st, cfg, r, lib, id, Fine, Fine).0, nonceKey)
  {
    VerifiedIsConcluded(st, cfg, r, lib, id);
    ConcludedMeans(st, LoadConfig(cfg), r, UsedIdentity(st, cfg, r, lib), lib, id);
  }

  /** A request with a key id is verified only by its live session: under that
      session's secret, for its application, and with the token it was issued
      for. Frontend requests always have a key id. */
  lemma VerifiedSession(st: Store, cfg: Config, r: Request, lib: Library, id: nat)
    requires IsVerified(st, cfg, r, lib, id)
    ensures HasPrefix(r.path, "/api/frontend/") ==> TrimSpace(r.keyId) != ""
    ensures TrimSpace(r.keyId) != "" ==>
      var key := SessionKey(TrimSpace(r.keyId));
      && Live(st, key) && st.keys[key].value.Text? && lib.decode(st.keys[key].value.s).Some?
      && var record := lib.decode(st.keys[key].value.s).value;
        && record.secret != "" && UsedIdentity(st, cfg, r, lib).secret == record.secret
        && UsedIdentity(st, cfg, r, lib).scope == "sid:" + TrimSpace(r.keyId)
        && (TrimSpace(r.appId) == "" || record.appId == "" || TrimSpace(r.appId) == record.appId)
        && (record.tokenHash != "" ==>
              ExtractBearerToken(r.authorization).Some?
              && Sha256Hex(lib, ExtractBearerToken(r.authorization).value) == record.tokenHash)
  {
    VerifiedIsConcluded(st, cfg, r, lib, id);
    if TrimSpace(r.keyId) != "" {
      VerifiedIsNotRefused(st, cfg, r, lib, id);
    }
  }

  lemma VerifiedIsNotRefused(st: Store, cfg: Config, r: Request, lib: Library, id: nat)
    requires IsVerified(st, cfg, r, lib, id) && TrimSpace(r.keyId) != ""
    ensures var session := ParseSession(lib, Serve(st, Get(SessionKey(TrimSpace(r.keyId))), 0, 0).1);
      SessionRefusal(r, session, lib) == None && UsedIdentity(st, cfg, r, lib) == Identify(LoadConfig(cfg), r, session)
  {}

  /** A client that sends none of the signature headers. */
  predicate SendsNothing(r: Request) {
    TrimSpace(r.appId) == "" && TrimSpace(r.timestamp) == "" && TrimSpace(r.nonce) == ""
    && TrimSpace(r.sign) == "" && TrimSpace(r.keyId) == ""
  }

  /** Exactly when a request passes without any check, on every store and network. */
  lemma SkippedIff(st: Store, cfg: Config, r: Request, lib: Library, id: nat, onGet: Fault, onSet: Fault)
    ensures Verify(st, cfg, r, lib, id, onGet, onSet).1.Skipped? <==>
      !InForce(cfg, r) || (!cfg.required && SendsNothing(r) && !HasPrefix(r.path, "/api/frontend/"))
  {
    EarlySkipIff(cfg, r, st.now);
  }

  lemma EarlySkipIff(cfg: Config, r: Request, now: int)
    ensures Precheck(LoadConfig(cfg), r, now) == Some(Skipped) <==>
      !InForce(cfg, r) || (!cfg.required && SendsNothing(r) && !HasPrefix(r.path, "/api/frontend/"))
  {
    var early := Precheck(LoadConfig(cfg), r, now);
    if early.Some? && early.value.Skipped? { assert !InForce(cfg, r) || SendsNothing(r); }
  }

  /** A request is not verified again while its nonce is live: in particular not
      right after it was verified. */
  lemma LiveNonceIsRefused(st: Store, cfg: Config, r: Request, lib: Library, id: nat)
    requires Live(st, NonceProtocol.NonceKey(UsedIdentity(st, cfg, r, lib).scope, TrimSpace(r.nonce)))
    ensures !IsVerified(st, cfg, r, lib, id)
  {
    if IsVerified(st, cfg, r, lib, id) {
      VerifiedMeans(st, cfg, r, lib, id);
    }
  }

  /** Main result: unless their MACs or their body hashes collide, two verified
      requests that carry the same signature bytes under the same secret
      agree in the method, the target, the timestamp, the nonce and the body. */
  lemma SignatureBindsRequest(st1: Store, cfg1: Config, r1: Request, id1: nat,
                              st2: Store, cfg2: Config, r2: Request, id2: nat, lib: Library)
    requires lib.Ok() && IsToken(r1.verb) && IsToken(r2.verb)
    requires var k, m1, m2 := UsedIdentity(st1, cfg1, r1, lib).secret, SignedText(r1, lib), SignedText(r2, lib);
      lib.hmac(k, m1) == lib.hmac(k, m2) ==> m1 == m2
    requires lib.sha256(r1.body) == lib.sha256(r2.body) ==> r1.body == r2.body
    requires IsVerified(st1, cfg1, r1, lib, id1) && IsVerified(st2, cfg2, r2, lib, id2)
    requires UsedIdentity(st1, cfg1, r1, lib).secret == UsedIdentity(st2, cfg2, r2, lib).secret
    requires DecodeSignature(TrimSpace(r1.sign)) == DecodeSignature(TrimSpace(r2.sign))
    ensures ToUpper(r1.verb) == ToUpper(r2.verb) && r1.body == r2.body
    ensures (r1.path + if r1.rawQuery == "" then "" else "?" + r1.rawQuery)
         == (r2.path + if r2.rawQuery == "" then "" else "?" + r2.rawQuery)
    ensures '?' !in r1.path && '?' !in r2.path ==> r1.path == r2.path && r1.rawQuery == r2.rawQuery
    ensures TrimSpace(r1.timestamp) == TrimSpace(r2.timestamp) && TrimSpace(r1.nonce) == TrimSpace(r2.nonce)
  {
    VerifiedMeans(st1, cfg1, r1, lib, id1);
    VerifiedMeans(st2, cfg2, r2, lib, id2);
    assert SignedText(r1, lib) == SignedText(r2, lib);
    HexIsHexText(lib.sha256(r1.body));
    HexIsHexText(lib.sha256(r2.body));
    PayloadInjective(r1.verb, RequestTarget(r1), TrimSpace(r1.timestamp), TrimSpace(r1.nonce), Sha256Hex(lib, r1.body),
                     r2.verb, RequestTarget(r2), TrimSpace(r2.timestamp), TrimSpace(r2.nonce), Sha256Hex(lib, r2.body));
    HexRoundTrip(lib.sha256(r1.body));
    HexRoundTrip(lib.sha256(r2.body));
    TargetIsPathAndQuery(r1);
    TargetIsPathAndQuery(r2);
    if '?' !in r1.path && '?' !in r2.path {
      TargetBinds(r1, r2);
    }
  }

  lemma TargetIsPathAndQuery(r: Request)
    ensures RequestTarget(r) == r.path + (if r.rawQuery == "" then "" else "?" + r.rawQuery)
  {
    assert r.path + "" == r.path;
  }

  /** A path without a question mark and a query are determined by the target. */
  lemma TargetBinds(r1: Request, r2: Request)
    requires RequestTarget(r1) == RequestTarget(r2) && '?' !in r1.path && '?' !in r2.path
    ensures r1.path == r2.path && r1.rawQuery == r2.rawQuery
  {
    var s, t := RequestTarget(r1), RequestTarget(r2);
    assert r1.rawQuery != "" ==> s[|r1.path|] == '?' && s[|r1.path| + 1..] == r1.rawQuery;
    assert r2.rawQuery != "" ==> t[|r2.path|] == '?' && t[|r2.path| + 1..] == r2.rawQuery;
    assert s[..|r1.path|] == r1.path && t[..|r2.path|] == r2.path;
  }

  // ---------- the signed text, line by line ----------

  /** Main result: the client signs five lines: the method in capitals, the path
      with the query if there is one, the timestamp, the nonce, and the hash of the
      body in lower-case hexadecimal. */
  lemma SignedLines(r: Request, lib: Library)
    requires IsToken(r.verb) && '\n' !in r.path && '\n' !in r.rawQuery
    requires ParseUnixTimestamp(TrimSpace(r.timestamp)).Some? && NonceMatches(TrimSpace(r.nonce))
    ensures Lines(SignedText(r, lib)) ==
      [ToUpper(r.verb), r.path + (if r.rawQuery == "" then "" else "?" + r.rawQuery),
       TrimSpace(r.timestamp), TrimSpace(r.nonce), HexEncode(lib.sha256(r.body))]
  {
    TargetIsPathAndQuery(r);
    HexIsHexText(lib.sha256(r.body));
    PartsAreOneLine(r.verb, TrimSpace(r.timestamp), TrimSpace(r.nonce), Sha256Hex(lib, r.body));
    PayloadLines(r.verb, RequestTarget(r), TrimSpace(r.timestamp), TrimSpace(r.nonce), Sha256Hex(lib, r.body));
  }

  lemma {:induction false} HexIsHexText(b: seq<Byte>)
    ensures IsHexText(HexEncode(b))
  {
    if b != [] { HexIsHexText(b[1..]); }
  }
}
