# Verification of the gateway's shared-state protocols

The gateway keeps most of its state outside a single request: in Redis (rate
limits, blocks, signing sessions, nonces) and in tables shared by all requests of
one process (circuit breakers, connections, domains, routes, balancing counters).
This project models those protocols in Dafny and proves what they guarantee in
every interleaving, every run, or for every input.

`dafny verify dfyconfig.toml` checks all of it.

## Modules

| module | models |
|---|---|
| `Strings`, `Wrappers` | Go's string functions and optional values |
| `RedisStore` | the Redis commands the gateway uses, each one atomic step, over a network that may lose a command or its reply |
| `RateLimit` | one request of the rate limiter cut at every Redis command, and any number of requests interleaving |
| `CounterLives`, `MinuteBound`, `BoundIsTight`, `CounterExpiry` | what the counters guarantee |
| `StrikeBlock`, `BlockSettles`, `BlockDuration`, `StrikeSeries`, `BlockIsCut`, `StrikeWindow`, `AudienceIsolation` | what the strike counter and the block guarantee |
| `Verdicts` | who is admitted, rejected and struck in every run, in the terms of the settings |
| `RateLimitCalls` | the same middleware as step-by-step procedures, proved to take the steps of `RateLimit` |
| `SignaturePayload`, `SignatureEncoding` | the signed text, and hexadecimal and base64 (RFC 4648, sections 8 and 4) |
| `NonceProtocol` | the timestamp window and the single-use nonce |
| `ApiSignature`, `SignSession`, `SignatureDecisions` | the signature middleware, the handler that issues signing sessions, and their decisions in the terms of headers and settings |
| `SignatureRuns`, `ReplayRuns`, `SessionRuns` | any number of requests in that middleware at once, following the nonce protocol; exactly when one request is verified once only; and sessions over whole runs |
| `CircuitBreaker` | the shared breaker states, with two critical sections per request |
| `ConnPool`, `RoundRobin`, `DomainIndex`, `RouteRegistry`, `RouteTables` | the other shared tables |

Where the code changes state step by step the model has a class or a method with
a loop, and the method's contract ties it to the function or state machine about
which the properties are proved. Interleavings are runs of a step function: a run
is any sequence of events, and an event that does not apply changes nothing. In a
`System` a client's steps are its Redis commands or its critical sections.

Three auxiliary notions have no counterpart in the code: the log of executed
INCRs and the time a key's life began (`RedisStore.Store`), which no reply depends
on; the completions of each service in lock order (`CircuitBreaker.Breakers.history`)
and the service a breaker state belongs to; and the services and references of the
requests in flight.

## Where the code does not do what it is said to do

- README.md:58 of the repository calls `requestsPerMinute` a per-minute limit L. A
  minute may admit up to 2L - 1 requests per counter key, never more, and for
  every L some run reaches that number (`MinuteBound.FewerThanTwiceTheLimit`,
  `BoundIsTight.BoundIsReached`).
- With Redis out of reach the limit holds for fail-closed paths only
  (`MinuteBound.OutageVerdict`), which is what the comment at
  internal/middleware/rate_limit.go:86-87 says.
- A well-formed request is verified once only, in every run, if and only if the
  nonce's lifetime exceeds twice the skew plus the delay between the two checks; for
  requests that were not ahead at first, if and only if it exceeds the skew plus the
  delay. The defaults, 300 seconds for both, meet neither condition
  (`ReplayRuns.SingleUseIff`, `PastSingleUseIff`, `DefaultsAreNotSingleUse`).
- Go's time difference saturates, so a timestamp 2^63 nanoseconds or more ahead of
  the clock passes the window check (`NonceProtocol.InWindowIff`), and no lifetime
  of the nonce keeps it from being verified again
  (`ReplayRuns.FarFutureIsVerifiedTwice`).
- Scopes and nonces may hold colons, so two different pairs can share a nonce key;
  `NonceProtocol.NonceKeysCollideIff` says which. Two sessions never do.
- A block lasts its configured duration if and only if no EXPIRE of an earlier
  strike is still in flight or the strike window is no shorter; a late EXPIRE cuts
  the block to the window (`BlockDuration.BlockLastsFullDurationIff`). With a shorter
  window, as in the defaults, some run from an empty server does cut a block
  (`BlockIsCut.AlwaysFullIff`, `DefaultBlockMayBeCut`).
- The repository's config.yaml:30 says a block needs that many strikes within
  windowSeconds. This holds from the first striker's EXPIRE on, exactly if no EXPIRE
  of an earlier life of the key is in flight (`StrikeWindow.EndsByIff`,
  `StrikesFallInWindow`). If that EXPIRE is lost nothing repeats it, and strikes any
  time apart still add up to a block (`StrikeWindow.LostExpireNeverForgets`).
- A request for a signing session without an app_id gets the application "<nil>";
  the X-App-Id header counts only if app_id is present and blank
  (`SignSession.HeaderAppIdIff`).
- Wildcard lookup depends on Go's map order if and only if two patterns of
  different sites have comparable suffixes (`DomainIndex.OrderIndependentIff`);
  route dispatch likewise, but all five route tables are free of such pairs.
- A listed domain with capitals or surrounding blanks is never found by name
  (`DomainIndex.ListedNameFoundIff`).

## Model

| member | source | states |
|---|---|---|
| RateLimit.KeyKinds | internal/middleware/rate_limit.go:61-82 | Counter keys and block keys are disjoint, and so are the global and the path key of a request, for all subjects, paths and addresses |
| CounterLives.CommandsAreAllowed | internal/middleware/rate_limit.go:124-153 | No request ever sends a command that could shorten a counter's minute or put text into a counter |
| CounterLives.IssueKeepsStore | internal/middleware/rate_limit.go:124-153 | Any command of the limiter, delivered or not, keeps: counts of one key life consecutive and distinct, lives ordered, every life of a counter at least 60 seconds long |
| MinuteBound.RunKeepsSystem | internal/middleware/rate_limit.go:28-108 | The same over every interleaving of any number of requests, and every request's control state agrees with the INCR it made |
| MinuteBound.OneLife | internal/middleware/rate_limit.go:97-107 | Requests admitted in one life of a counter hold distinct counts within the limit, so at most that many are admitted |
| MinuteBound.ThreeLivesSpanAMinute | internal/middleware/rate_limit.go:135-149 | INCRs of three different lives of one counter never fall into one minute |
| MinuteBound.EarlierLifeLosesOne | internal/middleware/rate_limit.go:82-107 | If two lives share a minute, the earlier one contributes at most limit - 1 admissions |
| MinuteBound.FewerThanTwiceTheLimit | internal/middleware/rate_limit.go:56-107 | In every run any half-open minute of INCR times admits at most 2L - 1 requests per global or path key; on the path of a fail-closed request under any pattern of Redis failures, otherwise among the requests whose commands on that counter worked |
| MinuteBound.AdmittedMeansCounted | internal/middleware/rate_limit.go:82-107 | An admitted request that had to be counted holds a count between 1 and its limit on its own key |
| MinuteBound.OutageVerdict | internal/middleware/rate_limit.go:84-95 | With Redis out of reach a limited request is admitted exactly if its path is not fail-closed, and no key changes |
| BoundIsTight.BoundIsReached | internal/middleware/rate_limit.go:56-107 | For every limit some run admits exactly 2L - 1 requests in one minute, so the bound is exact |
| BoundIsTight.FirstHit | internal/middleware/rate_limit.go:129-152 | A counter call on an absent key leaves count 1 and an expiry one minute ahead, and nothing else changed |
| BoundIsTight.LaterHit | internal/middleware/rate_limit.go:129-152 | A counter call on a live key with at least a second left raises the count by one and leaves the expiry alone |
| CounterExpiry.RunKeepsOwed | internal/middleware/rate_limit.go:135-139 | Without failures a counter without an expiry always has a request in flight that owes the EXPIRE |
| CounterExpiry.QuietCountersExpire | internal/middleware/rate_limit.go:124-153 | Without failures, once all requests have finished, every live counter expires within a minute |
| CounterExpiry.RepairRestoresExpiry | internal/middleware/rate_limit.go:141-149 | After a failure the next request whose TTL and EXPIRE work restores the expiry, whatever others do in between |
| StrikeBlock.SetNeedsFullSeries | internal/middleware/rate_limit.go:210-222 | In every run whoever is about to send the SET has made a strike whose own count is at least its threshold, and INCRs returned 1, 2, ... up to that count in that life of the key |
| StrikeBlock.TextComesFromSet | internal/middleware/rate_limit.go:220-222 | Text appears in a key by a delivered SET of a striking request only |
| StrikeBlock.BlockedNeedsStrikes | internal/middleware/rate_limit.go:207-222 | Whenever a key holds BLOCKED, the run has a last delivered SET of it, sent after such a full series, and the key has held the text ever since |
| StrikeBlock.AllSmallerCounted | internal/middleware/rate_limit.go:210-215 | A count reached in a life means that all smaller counts were reached in it |
| BlockSettles.FullCountOwesBlock | internal/middleware/rate_limit.go:210-222 | Without failures a count at the threshold means that the last striker is still in flight and owes the SET |
| BlockSettles.QuietCountsAreBelowThreshold | internal/middleware/rate_limit.go:210-222 | Without failures, once all requests have finished, no strike count has reached the threshold |
| BlockDuration.SetStartsBlock | internal/middleware/rate_limit.go:220-222 | Every SET that works leaves the key BLOCKED for the full duration |
| BlockDuration.SetKeyLasts | internal/middleware/rate_limit.go:207-222 | Whatever happens meanwhile, a blocked key keeps an expiry no earlier than min(window, duration), or the full duration if no EXPIRE is in flight |
| BlockDuration.BlockLastsWindowOrDuration | internal/middleware/rate_limit.go:207-222 | In every continuation the key reads BLOCKED for at least the smaller of window and duration after the SET |
| BlockDuration.BlockLastsFullDurationIff | internal/middleware/rate_limit.go:216-222 | The full duration is certain if and only if no earlier strike's EXPIRE is in flight or the window is no shorter |
| BlockDuration.LateExpireCutsBlock | internal/middleware/rate_limit.go:216-222 | A late EXPIRE with a shorter window ends the block early |
| StrikeSeries.OneStrike | internal/middleware/rate_limit.go:56-71 | Past the limit each request strikes once, at its own time: the first then owes an EXPIRE, one at the threshold the SET, any other nothing |
| BlockIsCut.BlockWithLateExpire | internal/middleware/rate_limit.go:210-222 | For every limit and threshold a run from an empty server sets a block while the EXPIRE of its first strike is in flight |
| BlockIsCut.AlwaysFullIff | internal/middleware/rate_limit.go:155-174 | Every block of every run lasts its full duration if and only if the configured window is no shorter than the duration |
| BlockIsCut.DefaultBlockMayBeCut | internal/middleware/rate_limit.go:156-161 | The default settings do not promise the full duration |
| StrikeWindow.EndsByIff | internal/middleware/rate_limit.go:210-218 | A life of the strike counter that collects until a given time is certain to end by then if and only if no EXPIRE of its key is in flight |
| StrikeWindow.StrikesFallInWindow | internal/middleware/rate_limit.go:210-222 | From the moment the first striker's EXPIRE is carried out, every strike of that life comes within the window, in every continuation, unless an earlier life's EXPIRE is in flight |
| StrikeWindow.LateExpireProlongs | internal/middleware/rate_limit.go:216-218 | An EXPIRE in flight can prolong a later life beyond its window |
| StrikeWindow.LostExpireNeverForgets | internal/middleware/rate_limit.go:216-222 | If the first striker's EXPIRE is lost, some run blocks on strikes that lie any time of a minute or more apart, whatever the window |
| AudienceIsolation.BlockKeyIff | internal/middleware/rate_limit.go:176-191 | Two requests share a block key if and only if their addresses are equal, their paths agree on the prefix /api/manage and they agree on the prefix /api/backend; addresses may hold colons |
| AudienceIsolation.GlobalKeyIff | internal/middleware/rate_limit.go:61 | Two requests share a global counter if and only if their subjects are equal and their paths agree on both prefixes |
| AudienceIsolation.PathKeyIff | internal/middleware/rate_limit.go:82 | Two requests share a path counter if and only if subject and path are equal; paths begin with a slash and subjects hold none |
| AudienceIsolation.SubjectIff | internal/middleware/rate_limit.go:110-122 | Two requests are counted together if and only if they are of one user, or of no user and one administrator, or of neither and one address |
| AudienceIsolation.OthersCannotTouch | internal/middleware/rate_limit.go:41-83 | No run of requests for others, as told by those prefixes, addresses, subjects and paths, touches a counter or a block |
| AudienceIsolation.OthersCannotBlock | internal/middleware/rate_limit.go:41-54 | No run of requests from other addresses or for other parts of the API changes what a client's block check leads to, while its key lives |
| Verdicts.VerdictIff | internal/middleware/rate_limit.go:28-108 | In every run a finished request was admitted if and only if perMinute is not positive, or it got past the global limit and its route is exempt, its path counter failed on a path that is not fail-closed, or its path count is within the limit; it struck if and only if a count was over its limit and its address may be blocked |
| Verdicts.PathLimitDecides | internal/middleware/rate_limit.go:73-103 | In numbers, in every run: a path count decides, both ways, by the route's setting if that is positive and by requestsPerMinute if no route matches; a route set to 0 is never counted |
| Verdicts.GlobalLimitDecides | internal/middleware/rate_limit.go:56-71 | A global count above globalRequestsPerMinute, or above requestsPerMinute if that is not set, rejects before any path count |
| Verdicts.UncountedRejectionIsBlock | internal/middleware/rate_limit.go:45-54 | A request rejected without a count was told it is blocked, may be blocked and sent nothing else |
| Verdicts.BlockedIsRefused | internal/middleware/rate_limit.go:45-54 | While its key reads BLOCKED a client that may be blocked is rejected with nothing counted |
| Verdicts.BlockRefuses | internal/middleware/rate_limit.go:45-54 | Once a block is set, every request of its address that arrives before it can end is rejected, whatever happens in between |
| Verdicts.BlockedInAnyForm | internal/middleware/rate_limit.go:196-199 | A stored value reads BLOCKED in any case and with any blanks around it; a count never does |
| Verdicts.SetFollowsSettings | internal/middleware/rate_limit.go:155-222 | The SET follows strikes counted 1 up to the configured threshold or 5 in one life, and blocks for the configured time or 1800 seconds |
| Verdicts.ExpireFollowsSettings | internal/middleware/rate_limit.go:155-218 | The first striker's EXPIRE is for the configured window or 300 seconds |
| Verdicts.QuietCountFollowsSettings | internal/middleware/rate_limit.go:155-222 | Without failures, at quiescence, a strike count that led to no block is below the configured threshold or 5 |
| RateLimitCalls.RateLimitMiddleware | internal/middleware/rate_limit.go:28-108 | The whole middleware from path, address, ids and configuration: its request has the route limit, fail-closed flag and subject these determine, and it ends as the step machine does |
| RateLimitCalls.HandleRequest | internal/middleware/rate_limit.go:28-108 | The middleware's verdict and its effect on Redis are those of the step machine, under every network behaviour |
| RateLimitCalls.UndisturbedIsSolo | internal/middleware/rate_limit.go:28-108 | A request that arrives in any state of the system and meets nobody ends with that verdict and that store, all other requests untouched |
| RateLimitCalls.HitRedisCounter | internal/middleware/rate_limit.go:124-153 | Takes the machine's steps; without failures it hands out the next count and leaves the counter with an expiry |
| RateLimitCalls.TtlAndRepair | internal/middleware/rate_limit.go:141-152 | Never reports an error, changes at most the expiry, and leaves a live counter with one |
| RateLimitCalls.IsIPBlocked | internal/middleware/rate_limit.go:187-200 | Blocked exactly if blocking applies, the read works and the live key holds BLOCKED in any case and spacing; changes nothing |
| RateLimitCalls.RecordStrike | internal/middleware/rate_limit.go:202-223 | Takes the machine's strike steps, EXPIRE only for the first strike, SET from the threshold on |
| RateLimitCalls.IsSubjectToStrikes | internal/middleware/rate_limit.go:187-190 | Blocking applies exactly to known addresses that are not whitelisted, when enabled |
| RateLimitCalls.IsWhitelistedIP | internal/middleware/rate_limit.go:225-235 | Listed exactly if some entry trims to the address |
| RateLimitCalls.IsFailClosedPath | internal/middleware/rate_limit.go:240-252 | Fail-closed exactly if the path contains a non-empty configured keyword or, if none is configured, withdraw, deposit, wash-code-rebate or transfer |
| RateLimitCalls.GetRouteLimit | internal/middleware/rate_limit.go:256-289 | Field by field: the limit of the first route with exactly this path; without one, of the first with the longest prefix of it; without any, -1 |
| Strings.TrimSpaceIs | internal/middleware/api_signature.go:86-90 | Trimming a header takes away exactly the spaces at both ends |
| Strings.AsciiSpaces | internal/middleware/api_signature.go:86-90 | Which ASCII characters count as spaces |
| SignaturePayload.PartsAreOneLine | internal/middleware/api_signature.go:109-118 | Method, accepted timestamp, accepted nonce and body hash hold no newline |
| SignaturePayload.PayloadInjective | internal/middleware/api_signature.go:183-190 | Two accepted requests with one signed text agree in upper-cased method, target, timestamp, nonce and body hash, even if targets hold newlines |
| SignaturePayload.PayloadLines | internal/middleware/api_signature.go:184-190 | Splitting the payload at its newlines gives back method, target, timestamp, nonce and hash in this order |
| SignaturePayload.NumberIsRead | internal/middleware/api_signature.go:411-413 | Every 64-bit number is read back from its decimal text, with or without a sign; larger ones are refused |
| SignaturePayload.SecondsOrMilliseconds | internal/middleware/api_signature.go:304-307 | A timestamp in seconds after September 2001 is read the same with three more digits |
| SignatureEncoding.HexRoundTrip | internal/middleware/api_signature.go:352-356 | Hexadecimal decoding undoes encoding, and the encoding has no blanks |
| SignatureEncoding.AlphabetsAreStandard | internal/middleware/api_signature.go:376-389 | The digits are those of tables 1 and 5 of RFC 4648; hexadecimal is written in lower case and read in both |
| SignatureEncoding.HexIsNumber | internal/middleware/api_signature.go:355 | A byte is written as two hexadecimal digits, the high one first |
| SignatureEncoding.QuadIsNumber | internal/middleware/api_signature.go:381-389 | Three bytes as one 24-bit number are four base64 digits, the most significant first |
| SignatureEncoding.LastQuadIsFilledUp | internal/middleware/api_signature.go:381-389 | One or two last bytes are filled up with zero bits, and with equals signs in the padded form |
| SignatureEncoding.ThreeByThree | internal/middleware/api_signature.go:381-389 | Longer texts are written three bytes at a time |
| SignatureEncoding.HexDecodable | internal/middleware/api_signature.go:376-379 | Only an even number of hexadecimal digits decodes |
| SignatureEncoding.B64RoundTrip | internal/middleware/api_signature.go:381-389 | Base64 decoding undoes encoding, padded and raw, for all byte strings |
| SignatureEncoding.B64Length | internal/middleware/api_signature.go:381-389 | Exact lengths of the two base64 encodings |
| SignatureEncoding.PaddedEnd | internal/middleware/api_signature.go:381-384 | The padded encoding ends in '=' unless the bytes come in threes |
| SignatureEncoding.B64IsNotHex | internal/middleware/api_signature.go:376-384 | Neither base64 form of a 32-byte MAC can pass for hexadecimal |
| SignatureEncoding.RawIsNotPadded | internal/middleware/api_signature.go:381-389 | The raw form of a 32-byte MAC cannot pass for the padded one |
| SignatureEncoding.SignatureEqualIff | internal/middleware/api_signature.go:358-368 | The comparison is true of exactly the texts that decode to the MAC |
| SignatureEncoding.AllEncodingsAccepted | internal/middleware/api_signature.go:358-392 | All three encodings of every 32-byte MAC are accepted, although the decoder tries another alphabet first |
| NonceProtocol.InWindowIff | internal/middleware/api_signature.go:311-318 | The check means "within the skew, either way", or at least 2^63 nanoseconds ahead |
| NonceProtocol.FarFutureIsInWindow | internal/middleware/api_signature.go:311-318 | A concrete timestamp of the year 2317 passes in 2023 |
| NonceProtocol.RunKeeps | internal/middleware/api_signature.go:320-333 | In every interleaving two acceptances of one nonce key are at least the nonce's lifetime apart |
| NonceProtocol.NonceIsSingleUse | internal/middleware/api_signature.go:198-205 | With a lifetime above twice the skew plus the delay no run accepts one scope, nonce and timestamp twice |
| NonceProtocol.PastTimestampIsSingleUse | internal/middleware/api_signature.go:198-205 | For timestamps not ahead at the first acceptance a lifetime above skew plus delay is enough |
| NonceProtocol.SingleUseIff | internal/middleware/api_signature.go:299-333 | For every scope, nonce and timestamp, the condition on the lifetime is sufficient and necessary |
| NonceProtocol.PastSingleUseIff | internal/middleware/api_signature.go:299-333 | For tickets not ahead at the first acceptance, a lifetime above skew plus delay is sufficient and necessary |
| NonceProtocol.BothAreAccepted | internal/middleware/api_signature.go:311-333 | For every scope, nonce and timestamp, two checks inside the window and a nonce that does not outlast the second SET NX give two acceptances |
| NonceProtocol.EdgeToEdgeAcceptsTwice | internal/middleware/api_signature.go:311-333 | If the condition on the lifetime fails, any ticket checked at both edges of its window is accepted twice |
| NonceProtocol.MiddleToEdgeAcceptsTwice | internal/middleware/api_signature.go:311-333 | If the lifetime is no longer than skew plus delay, any ticket checked at the time it names and at the end of its window is accepted twice |
| NonceProtocol.FarFutureIsAcceptedTwice | internal/middleware/api_signature.go:311-333 | For all settings, scopes and nonces, a timestamp 2^63 nanoseconds ahead, now and after the nonce's lifetime, is accepted twice in some run |
| NonceProtocol.NonceKeysCollideIff | internal/middleware/api_signature.go:321 | Two pairs of scope and nonce share a key if and only if they are equal or one scope is the other followed by a colon and the front of the other's nonce |
| NonceProtocol.SessionNoncesDoNotCollide | internal/middleware/api_signature.go:160 | Scopes of equal length, such as those of two sessions, never share a nonce key |
| NonceProtocol.DefaultsAreNotSingleUse | internal/middleware/api_signature.go:219-220 | The default settings meet neither condition, whatever the ticket |
| SignatureDecisions.ExemptIff | internal/middleware/api_signature.go:61-102 | Exactly which requests pass without any check, in terms of settings, path and headers |
| SignatureDecisions.TimelyIff | internal/middleware/api_signature.go:104-123 | A request is timely exactly if its nonce has 8 to 128 of the allowed characters and its timestamp is a number within the configured skew or 300 seconds of the clock, or 2^63 nanoseconds ahead |
| SignatureDecisions.NonceIsKept | internal/middleware/api_signature.go:198-205 | The nonce of a verified request is taken for the configured time or 300 seconds |
| SignatureDecisions.VerifiedWithoutSession | internal/middleware/api_signature.go:125-176 | A verified request without a key id belongs to the application it names or the default one, and carries the MAC under that application's secret or, if it has none, the default application's |
| SignatureDecisions.VerifiedWithSession | internal/middleware/api_signature.go:131-165 | With a key id it belongs to the application it names, the session's or the default one, in this order |
| SignatureDecisions.RefusedMeans | internal/middleware/api_signature.go:57-205 | Each refusal has its stated reason, whatever the network does, and an internal error means that the nonce command failed |
| SignatureDecisions.BearerTokenIff | internal/middleware/api_signature.go:394-404 | The token is what follows the word bearer in any case and a space, without blanks and not empty |
| ApiSignature.CheckSession | internal/middleware/api_signature.go:131-158 | The step-by-step session checks refuse exactly for the reason `SessionRefusal` gives, and otherwise hand out the session's application to a client that names none |
| ApiSignature.Middleware | internal/middleware/api_signature.go:57-213 | The step-by-step middleware, overwriting secret, scope and application as it goes, gives the verdict and the store of the decision function `Verify`, whatever the network does |
| SignatureRuns.UndisturbedIsVerify | internal/middleware/api_signature.go:57-213 | The machine of one request, with nobody in between, ends with the verdict and the store of `Verify` |
| SignatureRuns.RunFollows | internal/middleware/api_signature.go:57-213 | Every run of any number of requests, with sessions issued in between, is a run of the nonce protocol; a request is verified exactly if that accepts it |
| SignatureRuns.VerifiedOnce | internal/middleware/api_signature.go:198-212 | With a nonce lifetime above twice the skew plus the delay, no run verifies two requests with one scope, nonce and timestamp, unless that is 2^63 nanoseconds ahead |
| SignatureRuns.PastVerifiedOnce | internal/middleware/api_signature.go:198-212 | With a lifetime above skew plus delay, no run verifies a second one after a first whose timestamp was not ahead |
| ReplayRuns.BothAreVerified | internal/middleware/api_signature.go:57-213 | Any well-formed request, signed and sent twice while it is in its window, is verified twice if the nonce does not outlast the second SET NX; with a session or with an application secret |
| ReplayRuns.SingleUseIff | internal/middleware/api_signature.go:198-212 | Whatever well-formed request a client sends, the middleware verifies it once only, in every run, if and only if the nonce lives longer than twice the skew plus the delay |
| ReplayRuns.PastSingleUseIff | internal/middleware/api_signature.go:198-212 | If only requests not ahead at first matter, a lifetime above skew plus delay is necessary and sufficient |
| ReplayRuns.DefaultsAreNotSingleUse | internal/middleware/api_signature.go:219-237 | With the default settings every well-formed request can be verified twice, even one whose timestamp was not ahead |
| ReplayRuns.FarFutureIsVerifiedTwice | internal/middleware/api_signature.go:311-318 | For every lifetime a request whose timestamp is 2^63 nanoseconds ahead, now and when its nonce has expired, is verified twice in some run |
| SignSession.Handler | internal/proxy/sign_session.go:27-101 | The step-by-step handler stores the record and returns the session that `IssueSession` describes |
| SessionRuns.IssuedIsStored | internal/proxy/sign_session.go:59-99 | The stored record has the application and sign key the client was told; with valid claims and a bearer token, the token's hash and the claims' user and site; otherwise no token is asked for |
| SessionRuns.OnlyItsTokenVerifies | internal/proxy/sign_session.go:64-77 | A session issued to a client with valid claims and a bearer token verifies, in every run from then on, only requests whose token has the same hash |
| SessionRuns.SessionLives | internal/proxy/sign_session.go:43-46 | The session lives for the configured time, or ten minutes if that is less than one, and the client is told so |
| SessionRuns.AppIdOrder | internal/proxy/sign_session.go:31-41 | The application is the first that is not blank of the request data's, the header's, the configured one and default |
| SessionRuns.SessionKeysAreSeparate | internal/proxy/sign_session.go:88 | Different key ids have different session keys, and no session key is a nonce key |
| SessionRuns.OtherSessionsStay | internal/proxy/sign_session.go:88-92 | Issuing a session leaves all others as they are |
| SignSession.HeaderAppIdIff | internal/proxy/sign_session.go:31-41 | The header names the application if and only if app_id is present and blank; without app_id the application is "<nil>" |
| SignSession.IssuedAppIdIsTrimmed | internal/proxy/sign_session.go:31-41 | An issued application id is trimmed and not empty, so echoing it in a header gives it back |
| SignSession.IssuedRecordIsRead | internal/middleware/api_signature.go:335-350 | While the session key is live the server reads back the record that was issued |
| SignSession.SessionChecksPass | internal/middleware/api_signature.go:131-161 | The session checks accept a client that echoes or omits the application and repeats the token the session was issued for, if any |
| SignSession.IssuedSessionVerifies | internal/middleware/api_signature.go:86-212 | A client that signs with an issued session is verified, in any of the three encodings, while the session lives, the timestamp is in its window and the nonce is unused; it must repeat its token only if the session was issued for one |
| SignSession.VerifiedMeans | internal/middleware/api_signature.go:114-205 | A verified request carries the MAC of its canonical text under the secret in use, is timely, and its nonce was free before and is taken afterwards |
| SignSession.VerifiedSession | internal/middleware/api_signature.go:93-161 | A verified request with a key id has a live session, its secret, its application and its token; frontend requests always have a key id |
| SignSession.LiveNonceIsRefused | internal/middleware/api_signature.go:198-205 | No request is verified while its nonce is live |
| SignSession.SignatureBindsRequest | internal/middleware/api_signature.go:178-196 | Unless their MACs or body hashes collide, verified requests with one signature and secret agree in method, path with query, timestamp, nonce and body; in path and query separately if the paths hold no question mark |
| SignSession.SignedLines | internal/middleware/api_signature.go:178-190 | The client signs five lines: method in capitals, path with ? and query if there is one, timestamp, nonce, body hash in lower-case hexadecimal |
| CircuitBreaker.FiveFailuresPerOpening | internal/middleware/circuit_breaker.go:57-65 | Each opening consumes five failures of its own |
| CircuitBreaker.TrailingFailuresIsARun | internal/middleware/circuit_breaker.go:57-71 | The counted failures are the longest run of failures at the end of the history |
| CircuitBreaker.FiveInARowOpen | internal/middleware/circuit_breaker.go:57-65 | Of any five failures in a row one opens the breaker, for at least ten seconds from the first of them |
| CircuitBreaker.SuccessResets | internal/middleware/circuit_breaker.go:66-71 | A success sets the count to zero and leaves the open period |
| CircuitBreaker.OneMoreOutcome | internal/middleware/circuit_breaker.go:57-71 | Success resets, the fifth failure in a row opens, any other failure counts one up |
| CircuitBreaker.OpenedUntilGrows | internal/middleware/circuit_breaker.go:57-71 | The end of the open period never moves back, whatever completes |
| CircuitBreaker.OpenAtMostTenSeconds | internal/middleware/circuit_breaker.go:60-62 | The open period ends at most ten seconds after the last completion |
| CircuitBreaker.OpenLastsTenSeconds | internal/middleware/circuit_breaker.go:60-62 | Once opened, the breaker stays open ten seconds, late successes included |
| CircuitBreaker.BreakerState.Complete | internal/middleware/circuit_breaker.go:57-71 | Keeps the two fields equal to what the service's history calls for; the end of the open period does not move back |
| CircuitBreaker.Breakers.GetOrCreate | internal/middleware/circuit_breaker.go:37-41 | Returns the map's one entry for the service, a fresh zero state if there was none, and touches no other service |
| CircuitBreaker.Breakers.Begin | internal/middleware/circuit_breaker.go:35-47 | Nobody is admitted while the breaker is open, although the clock is read before the lock; an admitted request captures the map's entry |
| CircuitBreaker.Breakers.End | internal/middleware/circuit_breaker.go:52-71 | The completion lands in the history of the captured service and no other; OpenUntil never decreases |
| CircuitBreaker.NobodyEntersWhileOpen | internal/middleware/circuit_breaker.go:35-62 | In every run, from the completion that opens a breaker on, nobody is admitted who read the clock less than ten seconds after it |
| CircuitBreaker.RunExtends | internal/middleware/circuit_breaker.go:57-71 | In every run a service's history only grows at its end |
| CircuitBreaker.Take | internal/middleware/circuit_breaker.go:28-72 | One critical section changes clock, histories and admitted requests exactly as the machine's turn |
| CircuitBreaker.RunSchedule | internal/middleware/circuit_breaker.go:28-72 | After any schedule the shared state is that of the machine's run over the same turns; each FailCount is in 0..4 and equals the trailing failures since the last success or opening, OpenUntil is ten seconds after the last opening, and 5 * openings + FailCount <= failures |
| ConnPool.RunKeepsPool | internal/proxy/route_dispatcher.go:27-51 | In every interleaving each dialled connection is pooled, closed or held by exactly one caller |
| ConnPool.SameOpenConnection | internal/proxy/route_dispatcher.go:33-51 | All successful callers of an address get the same connection, dialled to that address and not closed |
| ConnPool.NothingLeaks | internal/proxy/route_dispatcher.go:46-50 | At quiescence every dialled connection is pooled or closed and not both, with exactly one pooled for each dialled address |
| ConnPool.PooledStays | internal/proxy/route_dispatcher.go:33-51 | A pooled connection stays the one of its address in every run |
| ConnPool.PooledIsNotDialled | internal/proxy/route_dispatcher.go:33-36 | Once an address has a pooled connection and nobody is about to dial it, no run dials it again |
| ConnPool.SharedPool.GetGRPCConn | internal/proxy/route_dispatcher.go:33-51 | The code, with any steps of other callers before each of its own, takes the pool through the machine's run of exactly those steps and returns the open pooled connection, or fails only if dialling fails; entries of all addresses stay |
| ConnPool.SharedPool.LoadOrStore | internal/proxy/route_dispatcher.go:46-50 | Takes the machine's steps; if the address has a connection by then, that one is returned and the caller's own is closed, otherwise the own one is pooled and stays open |
| RoundRobin.Balancer.GetServiceAddr | internal/registry/consul.go:38-78 | The index chosen, when it is out of range, and that only this service's counter moves, and only with two or more instances |
| RoundRobin.Balancer.ServeAll | internal/registry/consul.go:38-78 | In a series with all services and list sizes mixed, while counters are below 2^63: every index is in range, a service's l-th choice among several instances is its counter's start plus l modulo the list size, and if the service's list keeps its size n each instance is chosen k / n times, rounded down or up |
| RoundRobin.OccurrencesInWindow | internal/registry/consul.go:67-68 | How often an instance occurs in a window of consecutive counter values |
| RoundRobin.FairWindow | internal/registry/consul.go:67-68 | Every window of consecutive choices is fair |
| DomainIndex.SiteOfIsLast | internal/registry/domain_watcher.go:166-202 | A domain belongs to the site of the last usable pair that lists it in any section, and to none if there is no such pair |
| DomainIndex.UsableIff | internal/registry/domain_watcher.go:166-179 | A pair counts if and only if its key has exactly two parts and its value decodes; the second part is the site code |
| DomainIndex.LastPairRules | internal/registry/domain_watcher.go:166-202 | A usable pair at the end of a listing gives its site id and code to every domain in its API, H5, admin and callback sections and its configuration to its site code, and leaves all other domains and codes as they were |
| DomainIndex.UnusablePairsChangeNothing | internal/registry/domain_watcher.go:168-179 | Pairs whose key has not two parts or whose value does not decode change nothing |
| DomainIndex.DomainWatcher.AddDomains | internal/registry/domain_watcher.go:191-193 | Adds exactly the domains of one section |
| DomainIndex.DomainWatcher.AddPair | internal/registry/domain_watcher.go:166-202 | Adds exactly the domains of the API, H5, admin and callback sections, with the site id and code, and the configuration of a usable pair |
| DomainIndex.DomainWatcher.ProcessKVChanges | internal/registry/domain_watcher.go:159-217 | Both maps are those of the scan of this listing |
| DomainIndex.DomainWatcher.WatchOnce | internal/registry/domain_watcher.go:139-154 | After any round both maps belong to one completed listing, never a mixture; a failed listing keeps the old ones |
| DomainIndex.DomainWatcher.GetSiteInfoByDomain | internal/registry/domain_watcher.go:272-320 | The answer is that of the current listing's index: an exact entry always wins; otherwise the first matching wildcard in iteration order |
| DomainIndex.DomainWatcher.GetSiteConfig | internal/registry/domain_watcher.go:323-334 | The configuration of the last usable pair with this site code in the current listing |
| DomainIndex.DomainWatcher.ServeAll | internal/registry/domain_watcher.go:139-154 | In any series of rounds and lookups every answer is that of the listing of the last round before it that worked |
| DomainIndex.LookupMeaning | internal/registry/domain_watcher.go:290-320 | A lookup finds the site of the name itself or, failing that, of some listed pattern that matches, and nothing only if there is none |
| DomainIndex.OnlyOneIndex | internal/registry/domain_watcher.go:163-213 | A map that answers like the listing for every domain is the listing's index |
| DomainIndex.WildcardMeaning | internal/registry/domain_watcher.go:303-316 | `*.s` matches exactly the hosts x + "." + s |
| DomainIndex.CommonMatchComparable | internal/registry/domain_watcher.go:302-317 | Patterns that match one host have suffixes one of which ends in the other |
| DomainIndex.AmbiguityShows | internal/registry/domain_watcher.go:302-317 | Two comparable patterns of different sites give some host two answers, in two orders that visit every key once |
| DomainIndex.OrderIndependentIff | internal/registry/domain_watcher.go:290-320 | Lookup without an exact entry is independent of map order if and only if no two patterns of different sites are comparable |
| DomainIndex.ListedNameFoundIff | internal/registry/domain_watcher.go:291-299 | An entry can be found by name if and only if it was listed in lower case without surrounding blanks |
| DomainIndex.CaseAndBlanksAreIgnored | internal/registry/domain_watcher.go:291-299 | Letter case and surrounding blanks of a requested domain do not matter |
| RouteRegistry.Registry.Register | internal/proxy/route_handler.go:40-46 | Adds or replaces exactly one route |
| RouteRegistry.Registry.Handle | internal/proxy/route_handler.go:49-61 | The first fitting route in iteration order; in a suffix-free registry the one that fits |
| RouteRegistry.Registry.FromTable | internal/proxy/route_handler.go:82-210 | An init function builds the registry of its table, a later row replacing an earlier one |
| RouteRegistry.AtMostOneFits | internal/proxy/route_handler.go:54-58 | In a suffix-free registry at most one route fits any path |
| RouteRegistry.HandledIff | internal/proxy/route_handler.go:54-60 | In a suffix-free registry a route handles a request if and only if the method is the route's and the path is anything followed by its suffix |
| RouteRegistry.OrderIndependentIff | internal/proxy/route_handler.go:49-61 | Dispatch is independent of map order if and only if comparable suffixes of one method share their handler |
| RouteRegistry.SuffixSegments | internal/proxy/route_handler.go:54-58 | Among plain one- and two-segment suffixes, one ends in another only if they are equal or share the last segment |
| RouteRegistry.TableIsSuffixFree | internal/proxy/route_handler.go:82-210 | A table in which no one-segment route repeats the last segment of a two-segment one is suffix-free |
| RouteRegistry.RowIsServed | internal/proxy/route_handler.go:40-61 | A table without a clash serves each of its rows, under any front part of the path, with the handler of the last such row |
| RouteTables.ShapesAreSuffixFree | internal/proxy/route_handler.go:82-500 | The three shapes the tables have are suffix-free |
| RouteTables.BackendDispatches | internal/proxy/route_handler.go:82-210 | At most one backend route fits any path, and every row is served under any front part of the path in any iteration order |
| RouteTables.BalanceDispatches | internal/proxy/route_handler.go:213-316 | At most one balance route fits any path, and every row is served under any front part of the path in any iteration order |
| RouteTables.GameDispatches | internal/proxy/route_handler.go:319-352 | At most one game route fits any path, and every row is served under any front part of the path in any iteration order |
| RouteTables.ManageDispatches | internal/proxy/route_handler.go:355-447 | At most one manage route fits any path, and every row is served under any front part of the path in any iteration order |
| RouteTables.FrontendDispatches | internal/proxy/route_handler.go:450-500 | At most one frontend route fits any path, and every row is served under any front part of the path in any iteration order |

## Left out

- Redis, Consul, gRPC, JSON, JWT, HMAC and SHA-256 themselves: a store with the documented command semantics, a listing, a numbered connection, and functions that are parameters. Redis is not restarted, evicts nothing early and has no other writers on these keys.
- NonceProtocol.SingleUseIff: gateways and Redis share one clock, and times are whole milliseconds; drift between machines adds to the delay.
- SignSession.IssuedSessionVerifies: key ids are taken as fresh, and the store passes only commands that work between issuing and verifying.
- AudienceIsolation.PathKeyIff: client addresses are taken to hold no slash.
- MinuteBound.FewerThanTwiceTheLimit: a minute is measured at the server's INCR times, not at the gateways' clocks, and a counter is never outlived by more than 2^63 - 1 hits.
- BlockDuration.BlockLastsWindowOrDuration: all requests that strike one key are taken to read the same window and duration; a change of the settings in between is left out.
- NonceProtocol.InWindowIff: skews above 9,223,372,036 seconds, for which Go's duration overflows, are left out.
- ConnPool.SharedPool.GetGRPCConn: the steps of other callers enter as arbitrary event sequences before each of the four steps of this one.
- ReplayRuns.SingleUseIff: the run that verifies twice takes its session from a SET of a session record with a sufficient lifetime, and starts one skew before the request's timestamp; for timestamps closer than that to the epoch the clock starts before it.
- BlockIsCut.AlwaysFullIff: limits and thresholds so large that a 64-bit counter cannot pass them are left out.
- CircuitBreaker.Breakers.Begin: the service name is an input; a request without one passes and touches no state.
- Letter case is mapped for ASCII letters only, and strings are sequences of characters, not bytes. Domains with other capitals are outside the lookup results.
- User and administrator ids, the client address and the configuration values a request reads are given; a request's settings are read once.
- Handlers of the route tables are their row numbers, not the functions behind them.
- The development bypass of the signature check is a flag of the request; its host matching is left out.
- Response headers, reset times, logging, tracing, message texts, CORS, metadata copying, HTTP forwarding and report queries: presentation or plumbing.
- Path-prefix service selection, environment prefixes of service names, the random balancing variant, the request parser and the retry loop at start-up: they would only add easy members.
