/**
 Counters and blocks are kept apart: which requests share a key, and that no run of
 requests that do not share it changes its answer.
 */
module AudienceIsolation {
  import opened Wrappers
  import opened Strings
  import opened RedisStore
  import opened RateLimit
  import opened BlockDuration
  import opened SignaturePayload

  // ---------- which requests share a key ----------

  /** The two paths lie in the same part of the API: manage, backend, or the rest. */
  predicate SamePart(p: string, q: string) {
    && (HasPrefix(p, "/api/manage") <==> HasPrefix(q, "/api/manage"))
    && (HasPrefix(p, "/api/backend") <==> HasPrefix(q, "/api/backend"))
  }

  lemma AudienceIff(p: string, q: string)
    ensures RateAudience(p) == RateAudience(q) <==> SamePart(p, q)
    ensures |RateAudience(p)| > 0 && ':' !in RateAudience(p)
  {
    if HasPrefix(p, "/api/manage") { assert p[5] == 'm'; }
    if HasPrefix(p, "/api/backend") { assert p[5] == 'b'; }
    if HasPrefix(q, "/api/manage") { assert q[5] == 'm'; }
    if HasPrefix(q, "/api/backend") { assert q[5] == 'b'; }
    assert "manage" != "app" && "backend" != "app" && "manage" != "backend" by {
      assert "manage"[0] == 'm' && "backend"[0] == 'b' && "app"[0] == 'a';
    }
  }

  /** A text is split in one way at its first separator. */
  lemma SplitAtFirst(a: string, x: string, b: string, y: string, separator: char)
    requires a + [separator] + x == b + [separator] + y && separator !in a && separator !in b
    ensures a == b && x == y
  {
    var s, t := a + [separator] + x, b + [separator] + y;
    assert s[|a|] == separator && t[|b|] == separator;
    assert s[..|a|] == a && t[..|b|] == b && s[|a| + 1..] == x && t[|b| + 1..] == y;
  }

  lemma AudienceAndRest(p: string, x: string, q: string, y: string, prefix: string)
    ensures prefix + RateAudience(p) + ":" + x == prefix + RateAudience(q) + ":" + y <==> SamePart(p, q) && x == y
  {
    AudienceIff(p, q);
    AudienceIff(q, p);
    var s, t := RateAudience(p) + ":" + x, RateAudience(q) + ":" + y;
    assert prefix + RateAudience(p) + ":" + x == prefix + s && prefix + RateAudience(q) + ":" + y == prefix + t;
    assert (prefix + s)[|prefix|..] == s && (prefix + t)[|prefix|..] == t;
    if s == t { SplitAtFirst(RateAudience(p), x, RateAudience(q), y, ':'); }
  }

  /** Two clients share a block if and only if they have one address and ask for the
      same part of the API, even for addresses with colons. */
  lemma BlockKeyIff(p: string, ip1: string, q: string, ip2: string)
    ensures BlockKey(RateAudience(p), ip1) == BlockKey(RateAudience(q), ip2) <==> SamePart(p, q) && ip1 == ip2
  {
    AudienceAndRest(p, ip1, q, ip2, "rate_limit:block:");
  }

  /** Two requests share a global counter if and only if they have one subject and
      ask for the same part of the API. */
  lemma GlobalKeyIff(p: string, subject1: string, q: string, subject2: string)
    ensures GlobalKey(RateAudience(p), subject1) == GlobalKey(RateAudience(q), subject2)
            <==> SamePart(p, q) && subject1 == subject2
  {
    AudienceAndRest(p, subject1, q, subject2, "rate_limit:global:");
  }

  /** Two requests share a path counter if and only if they have one subject and one
      path: paths begin with a slash and subjects hold none. */
  lemma PathKeyIff(subject1: string, p: string, subject2: string, q: string)
    requires HasPrefix(p, "/") && HasPrefix(q, "/") && '/' !in subject1 && '/' !in subject2
    ensures PathKey(subject1, p) == PathKey(subject2, q) <==> subject1 == subject2 && p == q
  {
    var prefix := "rate_limit:path:";
    var s, t := subject1 + ":" + p, subject2 + ":" + q;
    assert PathKey(subject1, p) == prefix + s && PathKey(subject2, q) == prefix + t;
    assert (prefix + s)[|prefix|..] == s && (prefix + t)[|prefix|..] == t;
    if s == t {
      assert s == (subject1 + ":") + ['/'] + p[1..] && t == (subject2 + ":") + ['/'] + q[1..];
      SplitAtFirst(subject1 + ":", p[1..], subject2 + ":", q[1..], '/');
      assert (subject1 + ":")[..|subject1|] == (subject2 + ":")[..|subject2|];
    }
  }

  // ---------- whom a counter counts ----------

  /** The logged-in user, else the logged-in administrator, else the address. */
  function Subject(userId: int, adminId: int, ip: string): string {
    if userId > 0 then "user:" + Decimal(userId)
    else if adminId > 0 then "admin:" + Decimal(adminId)
    else "ip:" + ip
  }

  lemma SameDecimal(a: nat, b: nat)
    ensures Decimal(a) == Decimal(b) <==> a == b
    ensures '/' !in Decimal(a)
  {
    DecimalValue(a);
    DecimalValue(b);
  }

  lemma Tagged(tag: string, x: string, y: string)
    ensures (tag + x)[|tag|..] == x
    ensures tag + x == tag + y <==> x == y
  {
    assert (tag + x)[|tag|..] == x && (tag + y)[|tag|..] == y;
  }

  /** Two requests are counted together if and only if they are of one user, or of no
      user and of one administrator, or of neither and of one address. */
  lemma SubjectIff(user1: int, admin1: int, ip1: string, user2: int, admin2: int, ip2: string)
    ensures Subject(user1, admin1, ip1) == Subject(user2, admin2, ip2) <==>
      || (user1 > 0 && user1 == user2)
      || (user1 <= 0 && user2 <= 0 && admin1 > 0 && admin1 == admin2)
      || (user1 <= 0 && user2 <= 0 && admin1 <= 0 && admin2 <= 0 && ip1 == ip2)
    ensures '/' !in ip1 ==> '/' !in Subject(user1, admin1, ip1)
  {
    var s, t := Subject(user1, admin1, ip1), Subject(user2, admin2, ip2);
    assert s[0] == (if user1 > 0 then 'u' else if admin1 > 0 then 'a' else 'i');
    assert t[0] == (if user2 > 0 then 'u' else if admin2 > 0 then 'a' else 'i');
    Tagged("ip:", ip1, ip2);
    if user1 > 0 {
      SameDecimal(user1, if user2 > 0 then user2 else user1);
      if user2 > 0 { Tagged("user:", Decimal(user1), Decimal(user2)); }
    } else if admin1 > 0 {
      SameDecimal(admin1, if admin2 > 0 then admin2 else admin1);
      if admin2 > 0 { Tagged("admin:", Decimal(admin1), Decimal(admin2)); }
    }
  }

  // ---------- nobody else touches a key ----------

  /** A command leaves every key alone that is not one of the request's own. */
  lemma StepLeavesOtherKeys(s: System, id: nat, fault: Fault, round: nat, key: string)
    requires id in s.calls && !s.calls[id].pc.Done?
    requires forall c :: key != s.calls[id].req.Key(c)
    ensures var s' := StepCall(s, id, fault, round);
      s'.store.now == s.store.now && SameKey(s.store, s'.store, key)
  {
    var r, pc := s.calls[id].req, s.calls[id].pc;
    assert key != r.Key(Strike);
    if pc.HitIncr? || pc.HitExpire? || pc.HitTtl? || pc.HitRepair? { assert key != r.Key(pc.c); }
  }

  predicate SameKey(st: Store, st': Store, key: string) {
    (key in st.keys <==> key in st'.keys) && (key in st.keys ==> st.keys[key] == st'.keys[key])
  }

  /** Whom a key belongs to. */
  datatype Owner =
    | OfBlock(path: string, ip: string)
    | OfGlobal(path: string, subject: string)
    | OfPath(path: string, subject: string)

  function KeyOf(owner: Owner): string {
    match owner
    case OfBlock(path, ip) => "rate_limit:block:" + RateAudience(path) + ":" + ip
    case OfGlobal(path, subject) => "rate_limit:global:" + RateAudience(path) + ":" + subject
    case OfPath(path, subject) => "rate_limit:path:" + subject + ":" + path
  }

  /** The request counts, or strikes, for this owner. */
  predicate IsFor(r: Request, owner: Owner) {
    match owner
    case OfBlock(path, ip) => SamePart(r.path, path) && r.ip == ip
    case OfGlobal(path, subject) => SamePart(r.path, path) && r.subject == subject
    case OfPath(path, subject) => r.path == path && r.subject == subject
  }

  /** Paths begin with a slash, and subjects hold none. */
  predicate Usual(r: Request, owner: Owner) {
    owner.OfPath? ==>
      HasPrefix(r.path, "/") && HasPrefix(owner.path, "/") && '/' !in r.subject && '/' !in owner.subject
  }

  predicate ActsFor(s: System, ev: Event, owner: Owner) {
    ev.Act? && ev.id in s.calls && (IsFor(s.calls[ev.id].req, owner) || !Usual(s.calls[ev.id].req, owner))
  }

  /** No event of the run is a command of a request for this owner. */
  predicate OnlyOthersAct(s: System, events: seq<Event>, owner: Owner) {
    events == []
    || (OnlyOthersAct(s, events[..|events| - 1], owner)
        && !ActsFor(Run(s, events[..|events| - 1]), events[|events| - 1], owner))
  }

  lemma ForeignKeys(r: Request, owner: Owner)
    requires !IsFor(r, owner) && Usual(r, owner)
    ensures forall c :: KeyOf(owner) != r.Key(c)
  {
    var key := KeyOf(owner);
    forall c ensures key != r.Key(c) {
      assert key[11] == if owner.OfBlock? then 'b' else if owner.OfGlobal? then 'g' else 'p';
      assert r.Key(c)[11] == if c.Strike? then 'b' else if c.Global? then 'g' else 'p';
      match owner
      case OfBlock(path, ip) => BlockKeyIff(r.path, r.ip, path, ip);
      case OfGlobal(path, subject) => GlobalKeyIff(r.path, r.subject, path, subject);
      case OfPath(path, subject) => if Usual(r, owner) { PathKeyIff(r.subject, r.path, subject, path); }
    }
  }

  /** Main result: over a whole run of requests for others the key of an owner is not
      touched. So a counter keeps its count, and a request of a pair of API part and
      address is told "blocked" after the run exactly if it would have been told so
      before and the block has not expired meanwhile. */
  lemma {:induction false} OthersCannotTouch(s: System, events: seq<Event>, owner: Owner)
    requires OnlyOthersAct(s, events, owner)
    ensures var st, st', key := s.store, Run(s, events).store, KeyOf(owner);
      && SameKey(st, st', key) && st.now <= st'.now
      && (Blocked(st', key) <==> Blocked(st, key) && Live(st', key))
  {
    if events != [] {
      var before, ev := events[..|events| - 1], events[|events| - 1];
      OthersCannotTouch(s, before, owner);
      var s1 := Run(s, before);
      if ev.Act? && ev.id in s1.calls && !s1.calls[ev.id].pc.Done? {
        ForeignKeys(s1.calls[ev.id].req, owner);
        StepLeavesOtherKeys(s1, ev.id, ev.fault, ev.round, KeyOf(owner));
      }
    }
  }

  /** In particular for blocks, in the words of the API: no run of requests from other
      addresses or for other parts of the API changes a client's blocked answer. */
  lemma OthersCannotBlock(s: System, events: seq<Event>, id: nat, r: Request, round: nat)
    requires OnlyOthersAct(s, events, OfBlock(r.path, r.ip)) && id !in s.calls && id !in Run(s, events).calls
    requires r.perMinute > 0 && r.StrikesApply() && Live(Run(s, events).store, r.Key(Strike))
    ensures var s' := Run(s, events);
      var before := Step(Step(s, Arrive(id, r)), Act(id, Fine, round));
      var after := Step(Step(s', Arrive(id, r)), Act(id, Fine, round));
      before.calls[id].pc == after.calls[id].pc
  {
    OthersCannotTouch(s, events, OfBlock(r.path, r.ip));
    assert r.Key(Strike) == KeyOf(OfBlock(r.path, r.ip));
  }
}
