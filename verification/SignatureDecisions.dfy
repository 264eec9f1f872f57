/**
 The decisions of the signature middleware in the terms of headers and settings:
 which requests are exempt, what a timely request is, which secret and application a
 verified request has, and what each refusal means.
 */
module SignatureDecisions {
  import opened Wrappers
  import opened Strings
  import opened RedisStore
  import opened SignaturePayload
  import opened SignatureEncoding
  import opened ApiSignature
  import opened SignSession
  import NonceProtocol

  // ---------- the token ----------

  /** The header is the word "bearer" in any case, a space and a token, with any
      further blanks around them. */
  predicate IsBearer(header: string, scheme: string, rest: string) {
    TrimSpace(header) == scheme + " " + rest && ' ' !in scheme && ToLower(scheme) == "bearer"
  }

  lemma {:induction false} FirstSpaceEnds(scheme: string, rest: string)
    requires ' ' !in scheme
    ensures FirstSpace(scheme + " " + rest) == |scheme|
  {
    if scheme != "" {
      assert (scheme + " " + rest)[1..] == scheme[1..] + " " + rest;
      FirstSpaceEnds(scheme[1..], rest);
    }
  }

  lemma {:induction false} NoneBeforeFirstSpace(s: string)
    ensures ' ' !in s[..FirstSpace(s)]
  {
    if s != "" && s[0] != ' ' {
      NoneBeforeFirstSpace(s[1..]);
      assert s[..FirstSpace(s)] == [s[0]] + s[1..][..FirstSpace(s[1..])];
    }
  }

  /** The token is what follows the scheme, without blanks, and not empty. */
  lemma BearerTokenIff(header: string, token: string)
    ensures ExtractBearerToken(header) == Some(token) <==>
      token != "" && exists scheme, rest :: IsBearer(header, scheme, rest) && token == TrimSpace(rest)
  {
    var h := TrimSpace(header);
    var n := FirstSpace(h);
    if ExtractBearerToken(header) == Some(token) {
      NoneBeforeFirstSpace(h);
      assert h == h[..n] + " " + h[n + 1..];
      assert IsBearer(header, h[..n], h[n + 1..]);
    }
    if token != "" && exists scheme, rest :: IsBearer(header, scheme, rest) && token == TrimSpace(rest) {
      var scheme, rest :| IsBearer(header, scheme, rest) && token == TrimSpace(rest);
      FirstSpaceEnds(scheme, rest);
      assert h[..n] == scheme && h[n + 1..] == rest;
    }
  }

  // ---------- which requests are checked ----------

  /** Main result: exactly these requests pass without any check. */
  lemma ExemptIff(st: Store, cfg: Config, r: Request, lib: Library, id: nat, onGet: Fault, onSet: Fault)
    ensures Verify(st, cfg, r, lib, id, onGet, onSet).1.Skipped? <==>
      || !cfg.enabled
      || r.verb == "OPTIONS"
      || HasPrefix(r.contentType, "multipart/form-data")
      || HasSuffix(r.path, "/sign-session")
      || (exists skip :: skip in cfg.skipPaths && skip != "" && HasSuffix(r.path, skip))
      || r.devHost
      || (!cfg.required && !HasPrefix(r.path, "/api/frontend/")
          && TrimSpace(r.appId) == "" && TrimSpace(r.timestamp) == "" && TrimSpace(r.nonce) == ""
          && TrimSpace(r.sign) == "" && TrimSpace(r.keyId) == "")
  {
    SkippedIff(st, cfg, r, lib, id, onGet, onSet);
  }

  // ---------- time and nonce ----------

  predicate NonceForm(nonce: string) {
    8 <= |nonce| <= 128
    && forall c :: c in nonce ==> 'a' <= c <= 'z' || 'A' <= c <= 'Z' || '0' <= c <= '9' || c in "-_:."
  }

  /** Main result: a request is timely exactly if its nonce has 8 to 128 of the allowed
      characters and its timestamp is a number no further from the clock, in either
      direction, than the configured skew or 300 seconds, or 2^63 nanoseconds ahead. */
  lemma TimelyIff(cfg: Config, r: Request, now: int)
    requires Or(cfg.skewSeconds, 300) * 1_000_000_000 <= NonceProtocol.MAX_DURATION
    ensures Timely(cfg, r, now) <==>
      var t, skew := ParseUnixTimestamp(TrimSpace(r.timestamp)), 1000 * Or(cfg.skewSeconds, 300);
      && NonceForm(TrimSpace(r.nonce)) && t.Some?
      && (-skew <= now - 1000 * t.value <= skew || !NonceProtocol.NotFarFuture(now, t.value))
  {
    var t := ParseUnixTimestamp(TrimSpace(r.timestamp));
    NonceFormIsPattern(TrimSpace(r.nonce));
    if t.Some? { NonceProtocol.InWindowIff(now, t.value, Or(cfg.skewSeconds, 300)); }
  }

  lemma NonceFormIsPattern(nonce: string)
    ensures NonceForm(nonce) <==> NonceMatches(nonce)
  {
    if NonceForm(nonce) {
      forall i | 0 <= i < |nonce| ensures IsLetter(nonce[i]) || IsDigit(nonce[i]) || nonce[i] in "-_:." {
        assert nonce[i] in nonce;
      }
    }
  }

  /** The key of this scope and nonce expires after so many seconds. */
  predicate Kept(st: Store, st': Store, scope: string, nonce: string, seconds: int) {
    var key := "api_sign_nonce:" + scope + ":" + nonce;
    key in st'.keys && st'.keys[key].expiry == Some(st.now + 1000 * seconds)
  }

  /** The nonce of a verified request is taken for the configured time, or for 300
      seconds. */
  lemma NonceIsKept(st: Store, cfg: Config, r: Request, lib: Library, id: nat)
    requires IsVerified(st, cfg, r, lib, id)
    ensures Kept(st, Verify(st, cfg, r, lib, id, Fine, Fine).0, UsedIdentity(st, cfg, r, lib).scope,
                 TrimSpace(r.nonce), Or(cfg.nonceTtlSeconds, 300))
  {
    VerifiedIsConcluded(st, cfg, r, lib, id);
    var result := Verify(st, cfg, r, lib, id, Fine, Fine);
    ConclusionKeeps(st, LoadConfig(cfg), r, UsedIdentity(st, cfg, r, lib), lib, id, result.0, result.1);
  }

  lemma ConclusionKeeps(st: Store, cfg: Config, r: Request, who: Identity, lib: Library, id: nat, st': Store, verdict: Verdict)
    requires (st', verdict) == Conclude(st, cfg, r, who, lib, id, Fine) && verdict.Verified?
    ensures Kept(st, st', who.scope, TrimSpace(r.nonce), cfg.nonceTtlSeconds)
  {
    SetKeeps(st, who.scope, TrimSpace(r.nonce), cfg.nonceTtlSeconds, id, who.appId, TrimSpace(r.keyId));
  }

  lemma SetKeeps(st: Store, scope: string, nonce: string, seconds: int, id: nat, appId: string, keyId: string)
    requires NonceVerdict(Issue(st, SetNx(NonceProtocol.NonceKey(scope, nonce), "1", 1000 * seconds), id, Fine, 0).1, appId, keyId).Verified?
    ensures Kept(st, Issue(st, SetNx(NonceProtocol.NonceKey(scope, nonce), "1", 1000 * seconds), id, Fine, 0).0, scope, nonce, seconds)
  {}

  // ---------- who it is ----------

  function FirstOf(a: string, b: string): string {
    if a != "" then a else b
  }

  function DefaultApp(cfg: Config): string {
    FirstOf(cfg.defaultAppId, "default")
  }

  function SecretOf(cfg: Config, appId: string): string {
    if appId in cfg.appSecrets then cfg.appSecrets[appId] else ""
  }

  /** Main result: a verified request without a key id belongs to the application it
      names, or to the default one, and is signed with the secret configured for that
      application or, if it has none, with that of the default application. */
  lemma VerifiedWithoutSession(st: Store, cfg: Config, r: Request, lib: Library, id: nat)
    requires IsVerified(st, cfg, r, lib, id) && TrimSpace(r.keyId) == ""
    ensures var app := FirstOf(TrimSpace(r.appId), DefaultApp(cfg));
      var secret := FirstOf(SecretOf(cfg, app), SecretOf(cfg, DefaultApp(cfg)));
      && Verify(st, cfg, r, lib, id, Fine, Fine).1 == Verified(app, "")
      && secret != "" && DecodeSignature(TrimSpace(r.sign)) == Some(lib.hmac(secret, SignedText(r, lib)))
      && UsedIdentity(st, cfg, r, lib).scope == app
  {
    VerifiedMeans(st, cfg, r, lib, id);
    VerifiedIsConcluded(st, cfg, r, lib, id);
    ConclusionNames(st, LoadConfig(cfg), r, UsedIdentity(st, cfg, r, lib), lib, id);
  }

  /** With a key id it belongs to the application it names, the session's or the
      default one, in this order. */
  lemma VerifiedWithSession(st: Store, cfg: Config, r: Request, lib: Library, id: nat)
    requires IsVerified(st, cfg, r, lib, id) && TrimSpace(r.keyId) != ""
    ensures var keyId := TrimSpace(r.keyId);
      && SessionKey(keyId) in st.keys && st.keys[SessionKey(keyId)].value.Text?
      && var record := lib.decode(st.keys[SessionKey(keyId)].value.s);
        record.Some? && Verify(st, cfg, r, lib, id, Fine, Fine).1
          == Verified(FirstOf(FirstOf(TrimSpace(r.appId), record.value.appId), DefaultApp(cfg)), keyId)
  {
    VerifiedSession(st, cfg, r, lib, id);
    VerifiedIsConcluded(st, cfg, r, lib, id);
    ConclusionNames(st, LoadConfig(cfg), r, UsedIdentity(st, cfg, r, lib), lib, id);
  }

  lemma ConclusionNames(st: Store, cfg: Config, r: Request, who: Identity, lib: Library, id: nat)
    requires Conclude(st, cfg, r, who, lib, id, Fine).1.Verified?
    ensures Conclude(st, cfg, r, who, lib, id, Fine).1 == Verified(who.appId, TrimSpace(r.keyId)) && who.secret != ""
  {}

  // ---------- what a refusal means ----------

  /** The record a session look-up yields, if it yields one. */
  function FoundSession(st: Store, r: Request, lib: Library, onGet: Fault): Option<Record> {
    var key := SessionKey(TrimSpace(r.keyId));
    if onGet.Fine? && Live(st, key) && st.keys[key].value.Text? then lib.decode(st.keys[key].value.s) else None
  }

  /** The secret the signature is checked under. */
  function SecretInUse(st: Store, cfg: Config, r: Request, lib: Library): string {
    var app := FirstOf(TrimSpace(r.appId), DefaultApp(cfg));
    if TrimSpace(r.keyId) != "" then
      var session := FoundSession(st, r, lib, Fine);
      if session.Some? then session.value.secret else ""
    else FirstOf(SecretOf(cfg, app), SecretOf(cfg, DefaultApp(cfg)))
  }

  /** What is wrong with a request that is refused for this reason. */
  predicate Justified(st: Store, cfg: Config, r: Request, lib: Library, onGet: Fault, reason: Reason) {
    var session, token := FoundSession(st, r, lib, onGet), ExtractBearerToken(r.authorization);
    match reason
    case MissingSession => HasPrefix(r.path, "/api/frontend/") && TrimSpace(r.keyId) == ""
    case MissingParameter => TrimSpace(r.timestamp) == "" || TrimSpace(r.nonce) == "" || TrimSpace(r.sign) == ""
    case BadNonce => !NonceForm(TrimSpace(r.nonce))
    case BadTimestamp => ParseUnixTimestamp(TrimSpace(r.timestamp)).None?
    case Expired =>
      var t := ParseUnixTimestamp(TrimSpace(r.timestamp));
      NonceForm(TrimSpace(r.nonce)) && t.Some? && !NonceProtocol.InWindow(st.now, t.value, Or(cfg.skewSeconds, 300))
    case SessionExpired => TrimSpace(r.keyId) != "" && session.None?
    case SessionInvalid => session.Some? && session.value.secret == ""
    case AppMismatch =>
      session.Some? && session.value.appId != "" && TrimSpace(r.appId) != "" && TrimSpace(r.appId) != session.value.appId
    case MissingToken => session.Some? && session.value.tokenHash != "" && token.None?
    case TokenMismatch =>
      session.Some? && token.Some? && HexEncode(lib.sha256(token.value)) != session.value.tokenHash
    case UnknownApp => TrimSpace(r.keyId) == "" && SecretInUse(st, cfg, r, lib) == ""
    case WrongSignature =>
      DecodeSignature(TrimSpace(r.sign)) != Some(lib.hmac(SecretInUse(st, cfg, r, lib), SignedText(r, lib)))
    case Replayed =>
      var scope := if TrimSpace(r.keyId) != "" then "sid:" + TrimSpace(r.keyId) else FirstOf(TrimSpace(r.appId), DefaultApp(cfg));
      Live(st, "api_sign_nonce:" + scope + ":" + TrimSpace(r.nonce))
  }

  lemma EarlyRefusal(st: Store, cfg: Config, r: Request, lib: Library, onGet: Fault)
    ensures var early := Precheck(LoadConfig(cfg), r, st.now);
      early.Some? && early.value.Rejected? ==> Justified(st, cfg, r, lib, onGet, early.value.reason)
  {
    NonceFormIsPattern(TrimSpace(r.nonce));
  }

  lemma SessionRefused(st: Store, cfg: Config, r: Request, lib: Library, id: nat, onGet: Fault)
    requires TrimSpace(r.keyId) != ""
    ensures var (st', reply) := Issue(st, Get(SessionKey(TrimSpace(r.keyId))), id, onGet, 0);
      var session := ParseSession(lib, reply);
      var refusal := SessionRefusal(r, session, lib);
      && st' == st && session == FoundSession(st, r, lib, onGet)
      && (refusal.Some? ==> Justified(st, cfg, r, lib, onGet, refusal.value))
      && (refusal.None? ==> session.Some? && session.value.secret != "" && onGet.Fine?)
  {}

  lemma ConclusionRefused(st: Store, cfg: Config, r: Request, who: Identity, lib: Library, id: nat, onSet: Fault)
    ensures var verdict := Conclude(st, cfg, r, who, lib, id, onSet).1;
      && (verdict.InternalError? ==> !onSet.Fine?)
      && (verdict.Rejected? ==>
            || (verdict.reason.UnknownApp? && who.secret == "")
            || (verdict.reason.WrongSignature?
                && DecodeSignature(TrimSpace(r.sign)) != Some(lib.hmac(who.secret, SignedText(r, lib))))
            || (verdict.reason.Replayed? && Live(st, NonceProtocol.NonceKey(who.scope, TrimSpace(r.nonce)))))
  {
    SignatureEqualIff(TrimSpace(r.sign), lib.hmac(who.secret, SignedText(r, lib)));
    OkReads(who.appId, TrimSpace(r.keyId));
  }

  /** Main result: a request is refused only for what is wrong with it, whatever the
      network does, and an internal error means that the nonce command failed. */
  lemma RefusedMeans(st: Store, cfg: Config, r: Request, lib: Library, id: nat, onGet: Fault, onSet: Fault)
    ensures var verdict := Verify(st, cfg, r, lib, id, onGet, onSet).1;
      && (verdict.Rejected? ==> Justified(st, cfg, r, lib, onGet, verdict.reason))
      && (verdict.InternalError? ==> !onSet.Fine?)
  {
    EarlyRefusal(st, cfg, r, lib, onGet);
    if Precheck(LoadConfig(cfg), r, st.now).None? {
      LateRefusal(st, cfg, r, lib, id, onGet, onSet);
    } else {
      EarlyIsNoError(LoadConfig(cfg), r, st.now);
    }
  }

  lemma EarlyIsNoError(cfg: Config, r: Request, now: int)
    ensures Precheck(cfg, r, now) != Some(InternalError)
  {}

  lemma LateRefusal(st: Store, cfg: Config, r: Request, lib: Library, id: nat, onGet: Fault, onSet: Fault)
    requires Precheck(LoadConfig(cfg), r, st.now).None?
    ensures var verdict := Verify(st, cfg, r, lib, id, onGet, onSet).1;
      && (verdict.Rejected? ==> Justified(st, cfg, r, lib, onGet, verdict.reason))
      && (verdict.InternalError? ==> !onSet.Fine?)
  {
    var loaded := LoadConfig(cfg);
    if TrimSpace(r.keyId) == "" {
      ConclusionRefused(st, loaded, r, Identify(loaded, r, None), lib, id, onSet);
    } else {
      SessionRefused(st, cfg, r, lib, id, onGet);
      ConclusionRefused(st, loaded, r, Identify(loaded, r, FoundSession(st, r, lib, onGet)), lib, id, onSet);
    }
  }
}
