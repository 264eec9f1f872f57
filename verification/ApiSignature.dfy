/**
 The signature middleware and the handler that issues signing sessions, over one
 Redis server. HMAC, SHA-256, JSON and the JWT check are parameters.
 */
module ApiSignature {
  import opened Wrappers
  import opened Strings
  import opened RedisStore
  import opened SignaturePayload
  import opened SignatureEncoding
  import NonceProtocol

  // ---------- what is taken as given ----------

  datatype Record = Record(appId: string, secret: string, tokenHash: string, userId: int, siteId: int)

  /** `hmac(secret, text)`, `sha256(text)`, and the JSON form of a session record. */
  datatype Library = Library(hmac: (string, string) -> seq<Byte>, sha256: string -> seq<Byte>,
                             encode: Record -> string, decode: string -> Option<Record>)
  {
    ghost predicate Ok() {
      && (forall k, m :: |hmac(k, m)| == 32)
      && (forall m :: |sha256(m)| == 32)
      && (forall r :: decode(encode(r)) == Some(r))
    }
  }

  datatype Config = Config(enabled: bool, required: bool, skewSeconds: int, nonceTtlSeconds: int,
                           defaultAppId: string, skipPaths: seq<string>, appSecrets: map<string, string>)

  /** Missing or non-positive settings fall back to defaults. */
  function LoadConfig(raw: Config): Config {
    raw.(skewSeconds := if raw.skewSeconds <= 0 then 300 else raw.skewSeconds,
         nonceTtlSeconds := if raw.nonceTtlSeconds <= 0 then 300 else raw.nonceTtlSeconds,
         defaultAppId := if raw.defaultAppId == "" then "default" else raw.defaultAppId)
  }

  /** The parts of a request the middleware reads; the last seven are headers.
      `devHost` says whether the host is one of the configured bypass hosts. */
  datatype Request = Request(verb: string, path: string, rawQuery: string, body: string, devHost: bool,
                             contentType: string, authorization: string,
                             appId: string, timestamp: string, nonce: string, sign: string, keyId: string)

  datatype Reason =
    | MissingSession | MissingParameter | BadNonce | BadTimestamp | Expired
    | SessionExpired | SessionInvalid | AppMismatch | MissingToken | TokenMismatch
    | UnknownApp | WrongSignature | Replayed

  datatype Verdict =
    | Skipped
    | Rejected(reason: Reason)
    | InternalError
    | Verified(appId: string, keyId: string)

  // ---------- pure parts ----------

  function Sha256Hex(lib: Library, text: string): string {
    HexEncode(lib.sha256(text))
  }

  predicate ShouldSkipPath(path: string, skipPaths: seq<string>) {
    HasSuffix(path, "/sign-session") || exists skip :: skip in skipPaths && skip != "" && HasSuffix(path, skip)
  }

  /** The position of the first space, or the length. */
  function FirstSpace(s: string): (n: nat)
    ensures n <= |s|
    ensures n < |s| ==> s[n] == ' '
  {
    if s == "" || s[0] == ' ' then 0 else 1 + FirstSpace(s[1..])
  }

  /** The token of an "Authorization: Bearer <token>" header. */
  function ExtractBearerToken(header: string): Option<string> {
    var h := TrimSpace(header);
    var n := FirstSpace(h);
    if n == |h| || ToLower(h[..n]) != "bearer" then None
    else
      var token := TrimSpace(h[n + 1..]);
      if token == "" then None else Some(token)
  }

  function RequestTarget(r: Request): string {
    if r.rawQuery != "" then r.path + "?" + r.rawQuery else r.path
  }

  /** The text the client must have signed. */
  function SignedText(r: Request, lib: Library): string {
    Payload(r.verb, RequestTarget(r), TrimSpace(r.timestamp), TrimSpace(r.nonce), Sha256Hex(lib, r.body))
  }

  function SessionKey(keyId: string): string {
    "api_sign_session:" + keyId
  }

  function ParseSession(lib: Library, reply: Reply): Option<Record> {
    if reply.Found? && reply.value.Text? then lib.decode(reply.value.s) else None
  }

  /** The checks before the session is looked up. */
  function Precheck(cfg: Config, r: Request, now: int): Option<Verdict> {
    var keyId := TrimSpace(r.keyId);
    if !cfg.enabled || r.verb == "OPTIONS" then Some(Skipped)
    else if HasPrefix(r.contentType, "multipart/form-data") then Some(Skipped)
    else if ShouldSkipPath(r.path, cfg.skipPaths) then Some(Skipped)
    else if r.devHost then Some(Skipped)
    else if HasPrefix(r.path, "/api/frontend/") && keyId == "" then Some(Rejected(MissingSession))
    else if !cfg.required && TrimSpace(r.appId) == "" && TrimSpace(r.timestamp) == "" && TrimSpace(r.nonce) == ""
            && TrimSpace(r.sign) == "" && keyId == "" then Some(Skipped)
    else if TrimSpace(r.timestamp) == "" || TrimSpace(r.nonce) == "" || TrimSpace(r.sign) == "" then Some(Rejected(MissingParameter))
    else if !NonceMatches(TrimSpace(r.nonce)) then Some(Rejected(BadNonce))
    else
      match ParseUnixTimestamp(TrimSpace(r.timestamp))
      case None => Some(Rejected(BadTimestamp))
      case Some(t) =>
        if !NonceProtocol.InWindow(now, t, cfg.skewSeconds) then Some(Rejected(Expired)) else None
  }

  /** Why the session record does not admit the request, if it does not. */
  function SessionRefusal(r: Request, session: Option<Record>, lib: Library): Option<Reason> {
    match session
    case None => Some(SessionExpired)
    case Some(record) =>
      var appId := TrimSpace(r.appId);
      if record.secret == "" then Some(SessionInvalid)
      else if record.appId != "" && appId != "" && appId != record.appId then Some(AppMismatch)
      else if record.tokenHash != "" && ExtractBearerToken(r.authorization).None? then Some(MissingToken)
      else if record.tokenHash != "" && Sha256Hex(lib, ExtractBearerToken(r.authorization).value) != record.tokenHash
        then Some(TokenMismatch)
      else None
  }

  function AppSecret(cfg: Config, appId: string): string {
    var own := if appId in cfg.appSecrets then cfg.appSecrets[appId] else "";
    if own != "" then own
    else if cfg.defaultAppId in cfg.appSecrets then cfg.appSecrets[cfg.defaultAppId] else ""
  }

  /** The secret, nonce scope and application of a request past the session checks. */
  datatype Identity = Identity(secret: string, scope: string, appId: string)

  function Identify(cfg: Config, r: Request, session: Option<Record>): Identity {
    var appId := TrimSpace(r.appId);
    var orDefault := (a: string) => if a == "" then cfg.defaultAppId else a;
    if session.Some? then
      var app := orDefault(if appId == "" then session.value.appId else appId);
      Identity(session.value.secret, "sid:" + TrimSpace(r.keyId), app)
    else
      Identity(AppSecret(cfg, orDefault(appId)), orDefault(appId), orDefault(appId))
  }

  /** The outcome of the nonce command. */
  function NonceVerdict(reply: Reply, appId: string, keyId: string): Verdict {
    if reply.Err? then InternalError
    else if !reply.Found? || !reply.value.Text? || ToUpper(TrimSpace(reply.value.s)) != "OK" then Rejected(Replayed)
    else Verified(appId, keyId)
  }

  /** The checks once the secret is chosen: the signature, then the nonce. */
  function Conclude(st: Store, cfg: Config, r: Request, who: Identity, lib: Library, id: nat, onSet: Fault): (Store, Verdict) {
    if who.secret == "" then (st, Rejected(UnknownApp))
    else if !IsSignatureEqual(TrimSpace(r.sign), HexEncode(lib.hmac(who.secret, SignedText(r, lib)))) then
      (st, Rejected(WrongSignature))
    else
      var nonceKey := NonceProtocol.NonceKey(who.scope, TrimSpace(r.nonce));
      var (st', answer) := Issue(st, SetNx(nonceKey, "1", 1000 * cfg.nonceTtlSeconds), id, onSet, 0);
      (st', NonceVerdict(answer, who.appId, TrimSpace(r.keyId)))
  }

  /** The middleware as a function of the store, the clock and the network. */
  function Verify(st: Store, raw: Config, r: Request, lib: Library, id: nat, onGet: Fault, onSet: Fault): (Store, Verdict) {
    var cfg := LoadConfig(raw);
    var keyId := TrimSpace(r.keyId);
    var early := Precheck(cfg, r, st.now);
    if early.Some? then (st, early.value)
    else if keyId == "" then Conclude(st, cfg, r, Identify(cfg, r, None), lib, id, onSet)
    else
      var (st', reply) := Issue(st, Get(SessionKey(keyId)), id, onGet, 0);
      var session := ParseSession(lib, reply);
      var refusal := SessionRefusal(r, session, lib);
      if refusal.Some? then (st', Rejected(refusal.value))
      else Conclude(st', cfg, r, Identify(cfg, r, session), lib, id, onSet)
  }

  // ---------- the middleware as it runs ----------

  /** Looks up the session and checks it; a client that names no application gets
      that of the session. */
  method CheckSession(redis: Redis, r: Request, lib: Library, id: nat, onGet: Fault)
    returns (session: Option<Record>, appId: string, refusal: Option<Reason>)
    modifies redis
    ensures var (st', reply) := Issue(old(redis.store), Get(SessionKey(TrimSpace(r.keyId))), id, onGet, 0);
      redis.store == st' && session == ParseSession(lib, reply) && refusal == SessionRefusal(r, session, lib)
    ensures refusal.None? ==>
      session.Some? && appId == if TrimSpace(r.appId) == "" then session.value.appId else TrimSpace(r.appId)
  {
    appId := TrimSpace(r.appId);
    var reply := redis.Do(Get(SessionKey(TrimSpace(r.keyId))), id, onGet, 0);
    session := ParseSession(lib, reply);
    if session.None? {
      return session, appId, Some(SessionExpired);
    }
    if session.value.secret == "" {
      return session, appId, Some(SessionInvalid);
    }
    if appId == "" {
      appId := session.value.appId;
    }
    if session.value.appId != "" && appId != "" && appId != session.value.appId {
      return session, appId, Some(AppMismatch);
    }
    if session.value.tokenHash != "" {
      var token := ExtractBearerToken(r.authorization);
      if token.None? {
        return session, appId, Some(MissingToken);
      }
      if Sha256Hex(lib, token.value) != session.value.tokenHash {
        return session, appId, Some(TokenMismatch);
      }
    }
    refusal := None;
  }

  /** The handler keeps secret, nonce scope and application id in variables that it
      overwrites as it learns more. */
  method Middleware(redis: Redis, raw: Config, r: Request, lib: Library, id: nat, onGet: Fault, onSet: Fault)
    returns (verdict: Verdict)
    modifies redis
    ensures (redis.store, verdict) == Verify(old(redis.store), raw, r, lib, id, onGet, onSet)
  {
    var cfg := LoadConfig(raw);
    var early := Precheck(cfg, r, redis.store.now);
    if early.Some? {
      return early.value;
    }
    var appId, nonce, keyId := TrimSpace(r.appId), TrimSpace(r.nonce), TrimSpace(r.keyId);
    var secret, nonceScope := "", appId;
    var session: Option<Record> := None;
    if nonceScope == "" {
      nonceScope := cfg.defaultAppId;
    }
    if keyId != "" {
      var refusal;
      session, appId, refusal := CheckSession(redis, r, lib, id, onGet);
      if refusal.Some? {
        return Rejected(refusal.value);
      }
      secret := session.value.secret;
      nonceScope := "sid:" + keyId;
    }
    if appId == "" {
      appId := cfg.defaultAppId;
    }
    if secret == "" {
      secret := if appId in cfg.appSecrets then cfg.appSecrets[appId] else "";
      if secret == "" {
        secret := if cfg.defaultAppId in cfg.appSecrets then cfg.appSecrets[cfg.defaultAppId] else "";
      }
    }
    assert Identity(secret, nonceScope, appId) == Identify(cfg, r, session);
    if secret == "" {
      return Rejected(UnknownApp);
    }
    var expected := HexEncode(lib.hmac(secret, SignedText(r, lib)));
    if !IsSignatureEqual(TrimSpace(r.sign), expected) {
      return Rejected(WrongSignature);
    }
    var answer := redis.Do(SetNx(NonceProtocol.NonceKey(nonceScope, nonce), "1", 1000 * cfg.nonceTtlSeconds), id, onSet, 0);
    return NonceVerdict(answer, appId, keyId);
  }
}
