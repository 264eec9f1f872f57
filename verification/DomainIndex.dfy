/**
 The index from domains to sites, rebuilt from a listing of the key-value store,
 and the lookup with wildcards over a map whose iteration order is not specified.
 */
module DomainIndex {
  import opened Wrappers
  import opened Strings

  datatype SiteInfo = SiteInfo(siteId: int, siteCode: string)

  datatype SiteConfig = SiteConfig(siteId: int, code: string, api: seq<string>, h5: seq<string>,
                                   admin: seq<string>, callback: seq<string>)

  /** A listed pair; `config` is the decoded value, if it decodes. */
  datatype Pair = Pair(key: string, config: Option<SiteConfig>)

  // ---------- what a listing means ----------

  function Slashes(s: string): nat {
    if s == "" then 0 else Slashes(s[1..]) + (if s[0] == '/' then 1 else 0)
  }

  function FirstSlash(s: string): (n: nat)
    ensures n <= |s|
    ensures n < |s| <==> Slashes(s) > 0
  {
    if s == "" || s[0] == '/' then 0 else 1 + FirstSlash(s[1..])
  }

  /** The pair counts: its key splits into exactly two parts and its value decodes. */
  predicate Usable(pair: Pair) {
    Slashes(pair.key) == 1 && pair.config.Some?
  }

  function SiteCode(pair: Pair): string
    requires Usable(pair)
  {
    pair.key[FirstSlash(pair.key) + 1..]
  }

  function Info(config: SiteConfig): SiteInfo {
    SiteInfo(config.siteId, config.code)
  }

  function Domains(config: SiteConfig): seq<string> {
    config.api + config.h5 + config.admin + config.callback
  }

  predicate Lists(pair: Pair, domain: string) {
    Usable(pair) && domain in Domains(pair.config.value)
  }

  /** The scan that says which site a domain belongs to: the last pair wins. */
  function SiteOf(pairs: seq<Pair>, domain: string): Option<SiteInfo> {
    if pairs == [] then None
    else if Lists(pairs[|pairs| - 1], domain) then Some(Info(pairs[|pairs| - 1].config.value))
    else SiteOf(pairs[..|pairs| - 1], domain)
  }

  function ConfigOf(pairs: seq<Pair>, code: string): Option<SiteConfig> {
    if pairs == [] then None
    else if Usable(pairs[|pairs| - 1]) && SiteCode(pairs[|pairs| - 1]) == code then pairs[|pairs| - 1].config
    else ConfigOf(pairs[..|pairs| - 1], code)
  }

  /** The key has exactly two parts, `site` being the second. */
  predicate HasParts(key: string, directory: string, site: string) {
    key == directory + "/" + site && '/' !in directory && '/' !in site
  }

  lemma {:induction false} NoSlashes(s: string)
    ensures Slashes(s) == 0 <==> '/' !in s
  {
    if s != "" {
      NoSlashes(s[1..]);
      assert s == [s[0]] + s[1..];
    }
  }

  lemma {:induction false} SlashesOfParts(directory: string, site: string)
    requires '/' !in directory && '/' !in site
    ensures Slashes(directory + "/" + site) == 1 && FirstSlash(directory + "/" + site) == |directory|
  {
    var key := directory + "/" + site;
    if directory == "" {
      assert key[1..] == site;
      NoSlashes(site);
    } else {
      assert key[1..] == directory[1..] + "/" + site;
      SlashesOfParts(directory[1..], site);
    }
  }

  lemma {:induction false} FirstSlashSplits(key: string)
    requires Slashes(key) == 1
    ensures var n := FirstSlash(key); HasParts(key, key[..n], key[n + 1..])
  {
    var n := FirstSlash(key);
    if key[0] == '/' {
      NoSlashes(key[1..]);
      assert key == "" + "/" + key[1..];
    } else {
      FirstSlashSplits(key[1..]);
      assert key == [key[0]] + key[1..];
      assert key[..n] == [key[0]] + key[1..][..n - 1] && key[n + 1..] == key[1..][n..];
    }
  }

  /** A pair counts if and only if its key has two parts and its value decodes; the
      second part is the site's code. */
  lemma UsableIff(pair: Pair)
    ensures Usable(pair) <==> pair.config.Some? && exists directory, site :: HasParts(pair.key, directory, site)
    ensures forall directory, site :: Usable(pair) && HasParts(pair.key, directory, site) ==> SiteCode(pair) == site
  {
    forall directory, site | HasParts(pair.key, directory, site)
      ensures Slashes(pair.key) == 1 && pair.key[FirstSlash(pair.key) + 1..] == site
    {
      SlashesOfParts(directory, site);
    }
    if Usable(pair) { FirstSlashSplits(pair.key); }
  }

  /** Main result: a usable pair at the end of a listing gives its site to every
      domain in its API, H5, admin and callback sections and its configuration to its
      site code, and leaves all other domains and codes as they were. */
  lemma LastPairRules(pairs: seq<Pair>, pair: Pair, directory: string, site: string, config: SiteConfig, d: string)
    requires HasParts(pair.key, directory, site) && pair.config == Some(config)
    ensures SiteOf(pairs + [pair], d) ==
      if d in config.api || d in config.h5 || d in config.admin || d in config.callback
      then Some(SiteInfo(config.siteId, config.code)) else SiteOf(pairs, d)
    ensures ConfigOf(pairs + [pair], d) == if d == site then Some(config) else ConfigOf(pairs, d)
  {
    UsableIff(pair);
    assert (pairs + [pair])[..|pairs|] == pairs;
  }

  /** Pair i lists the domain, and no later pair does. */
  predicate ListsLast(pairs: seq<Pair>, domain: string, i: int) {
    0 <= i < |pairs| && Lists(pairs[i], domain) && forall j :: i < j < |pairs| ==> !Lists(pairs[j], domain)
  }

  /** The scan in other words: the listing pair after which no other lists the domain. */
  lemma {:induction false} SiteOfIsLast(pairs: seq<Pair>, domain: string)
    ensures SiteOf(pairs, domain).None? <==> forall i :: 0 <= i < |pairs| ==> !Lists(pairs[i], domain)
    ensures SiteOf(pairs, domain).Some? ==> exists i ::
      ListsLast(pairs, domain, i) && SiteOf(pairs, domain) == Some(Info(pairs[i].config.value))
  {
    if pairs != [] {
      var before, last := pairs[..|pairs| - 1], |pairs| - 1;
      assert forall i :: 0 <= i < last ==> pairs[i] == before[i];
      if Lists(pairs[last], domain) {
        assert ListsLast(pairs, domain, last);
      } else {
        SiteOfIsLast(before, domain);
        if SiteOf(before, domain).Some? {
          var i :| ListsLast(before, domain, i) && SiteOf(before, domain) == Some(Info(before[i].config.value));
          assert ListsLast(pairs, domain, i);
        }
      }
    }
  }

  /** A pair with another number of key parts, or that does not decode, changes nothing. */
  lemma {:induction false} UnusablePairsChangeNothing(before: seq<Pair>, pair: Pair, after: seq<Pair>, domain: string, code: string)
    requires !Usable(pair)
    ensures SiteOf(before + [pair] + after, domain) == SiteOf(before + after, domain)
    ensures ConfigOf(before + [pair] + after, code) == ConfigOf(before + after, code)
    decreases |after|
  {
    var long, short := before + [pair] + after, before + after;
    if after == [] {
      assert long[..|long| - 1] == before && short == before;
    } else {
      var shorter := after[..|after| - 1];
      assert long[..|long| - 1] == before + [pair] + shorter && short[..|short| - 1] == before + shorter;
      assert long[|long| - 1] == short[|short| - 1] == after[|after| - 1];
      UnusablePairsChangeNothing(before, pair, shorter, domain, code);
    }
  }

  // ---------- the watcher ----------

  predicate Indexes(m: map<string, SiteInfo>, pairs: seq<Pair>, domain: string) {
    match SiteOf(pairs, domain)
    case None => domain !in m
    case Some(info) => domain in m && m[domain] == info
  }

  predicate Configures(m: map<string, SiteConfig>, pairs: seq<Pair>, code: string) {
    match ConfigOf(pairs, code)
    case None => code !in m
    case Some(config) => code in m && m[code] == config
  }

  /** The whole index of a listing: each pair overrides those before it. */
  function Index(pairs: seq<Pair>): map<string, SiteInfo> {
    if pairs == [] then map[]
    else
      var last := pairs[|pairs| - 1];
      Index(pairs[..|pairs| - 1]) +
        if Usable(last) then map d | d in Domains(last.config.value) :: Info(last.config.value) else map[]
  }

  lemma {:induction false} IndexIndexes(pairs: seq<Pair>, domain: string)
    ensures Indexes(Index(pairs), pairs, domain)
  {
    if pairs != [] {
      IndexIndexes(pairs[..|pairs| - 1], domain);
    }
  }

  /** A map that answers like the listing for every domain is its index. */
  lemma OnlyOneIndex(m: map<string, SiteInfo>, pairs: seq<Pair>)
    requires forall domain :: Indexes(m, pairs, domain)
    ensures m == Index(pairs)
  {
    forall domain ensures domain in m <==> domain in Index(pairs)
                  ensures domain in m ==> m[domain] == Index(pairs)[domain]
    {
      assert Indexes(m, pairs, domain);
      IndexIndexes(pairs, domain);
    }
  }

  lemma OneMorePair(pairs: seq<Pair>, i: nat, d: string)
    requires i < |pairs|
    ensures SiteOf(pairs[..i + 1], d) == (if Lists(pairs[i], d) then Some(Info(pairs[i].config.value)) else SiteOf(pairs[..i], d))
    ensures ConfigOf(pairs[..i + 1], d)
         == (if Usable(pairs[i]) && SiteCode(pairs[i]) == d then pairs[i].config else ConfigOf(pairs[..i], d))
  {
    var longer := pairs[..i + 1];
    assert longer[..|longer| - 1] == pairs[..i] && longer[|longer| - 1] == pairs[i];
  }

  class DomainWatcher {
    var domainMap: map<string, SiteInfo>
    var siteConfigs: map<string, SiteConfig>
    /** Auxiliary: the listing the two maps were built from. */
    ghost var listing: seq<Pair>

    constructor ()
      ensures Valid() && listing == []
    {
      domainMap, siteConfigs, listing := map[], map[], [];
    }

    /** Both maps are those of one and the same listing. */
    ghost predicate Valid()
      reads this
    {
      && (forall domain :: Indexes(domainMap, listing, domain))
      && (forall code :: Configures(siteConfigs, listing, code))
    }

    /** Adds one section of a site's domains. */
    method AddDomains(m: map<string, SiteInfo>, domains: seq<string>, info: SiteInfo) returns (m': map<string, SiteInfo>)
      ensures forall d :: d in m' <==> d in m || d in domains
      ensures forall d :: d in m' ==> m'[d] == if d in domains then info else m[d]
    {
      m' := m;
      for i := 0 to |domains|
        invariant forall d :: d in m' <==> d in m || d in domains[..i]
        invariant forall d :: d in m' ==> m'[d] == if d in domains[..i] then info else m[d]
      {
        m' := m'[domains[i] := info];
        assert domains[..i + 1] == domains[..i] + [domains[i]];
      }
      assert domains[..|domains|] == domains;
    }

    /** The body of the listing loop: one pair. */
    method AddPair(pair: Pair, m: map<string, SiteInfo>, c: map<string, SiteConfig>)
      returns (m': map<string, SiteInfo>, c': map<string, SiteConfig>)
      ensures forall d :: d in m' <==> d in m || Lists(pair, d)
      ensures forall d :: d in m' ==> m'[d] == if Lists(pair, d) then Info(pair.config.value) else m[d]
      ensures c' == if Usable(pair) then c[SiteCode(pair) := pair.config.value] else c
      ensures Usable(pair) ==> var config := pair.config.value;
        forall d :: d in config.api || d in config.h5 || d in config.admin || d in config.callback ==>
          d in m' && m'[d] == SiteInfo(config.siteId, config.code)
    {
      m', c' := m, c;
      if Slashes(pair.key) != 1 || pair.config.None? {
        return;
      }
      var config := pair.config.value;
      var siteCode := pair.key[FirstSlash(pair.key) + 1..];
      c' := c'[siteCode := config];
      var info := SiteInfo(config.siteId, config.code);
      m' := AddDomains(m', config.api, info);
      m' := AddDomains(m', config.h5, info);
      m' := AddDomains(m', config.admin, info);
      m' := AddDomains(m', config.callback, info);
    }

    /** The maps are filled on the side and swapped in together at the end. */
    method ProcessKVChanges(pairs: seq<Pair>)
      modifies this
      ensures Valid() && listing == pairs
    {
      var newDomainMap: map<string, SiteInfo> := map[];
      var newSiteConfigs: map<string, SiteConfig> := map[];
      for i := 0 to |pairs|
        invariant forall d :: Indexes(newDomainMap, pairs[..i], d)
        invariant forall d :: Configures(newSiteConfigs, pairs[..i], d)
      {
        ghost var domainsBefore, configsBefore := newDomainMap, newSiteConfigs;
        newDomainMap, newSiteConfigs := AddPair(pairs[i], newDomainMap, newSiteConfigs);
        ghost var seen := pairs[..i + 1];
        forall d ensures Indexes(newDomainMap, seen, d) && Configures(newSiteConfigs, seen, d) {
          OneMorePair(pairs, i, d);
          assert Indexes(domainsBefore, pairs[..i], d) && Configures(configsBefore, pairs[..i], d);
        }
      }
      assert pairs[..|pairs|] == pairs;
      domainMap, siteConfigs, listing := newDomainMap, newSiteConfigs, pairs;
    }

    /** A round of the watch loop: a failed listing keeps the old maps. */
    method WatchOnce(listed: Option<seq<Pair>>)
      requires Valid()
      modifies this
      ensures Valid() && listing == if listed.Some? then listed.value else old(listing)
      ensures listed.None? ==> domainMap == old(domainMap) && siteConfigs == old(siteConfigs)
    {
      if listed.Some? {
        ProcessKVChanges(listed.value);
      }
    }

    /** A lookup under the read lock, in some iteration order of the map: the answer
        is that of the current listing's index. */
    method GetSiteInfoByDomain(domain: string, order: seq<string>) returns (site: Option<SiteInfo>)
      requires Valid() && IsOrderOf(order, Index(listing))
      ensures site == Lookup(Index(listing), order, domain)
      ensures var d := Normalize(domain);
        d != "" && SiteOf(listing, d).Some? ==> site == SiteOf(listing, d)
    {
      OnlyOneIndex(domainMap, listing);
      var d := TrimSpace(ToLower(domain));
      assert Indexes(domainMap, listing, d);
      if d == "" {
        return None;
      }
      if d in domainMap {
        return Some(domainMap[d]);
      }
      for i := 0 to |order|
        invariant FirstMatch(domainMap, order, d) == FirstMatch(domainMap, order[i..], d)
      {
        if Matches(order[i], d) {
          return Some(domainMap[order[i]]);
        }
      }
      return None;
    }

    method GetSiteConfig(siteCode: string) returns (config: Option<SiteConfig>)
      requires Valid()
      ensures config == ConfigOf(listing, siteCode)
    {
      assert Configures(siteConfigs, listing, siteCode);
      if siteCode in siteConfigs {
        return Some(siteConfigs[siteCode]);
      }
      return None;
    }

    /** Any series of rounds and lookups: every answer is that of the listing of the
        last round before it that worked. */
    method ServeAll(turns: seq<Turn>) returns (answers: seq<Answer>)
      requires Valid() && OrdersFit(listing, turns)
      modifies this
      ensures Valid() && listing == ListingAfter(old(listing), turns)
      ensures |answers| == |turns|
      ensures forall i :: 0 <= i < |turns| ==> IsAnswer(ListingAfter(old(listing), turns[..i]), turns[i], answers[i])
    {
      answers := [];
      for i := 0 to |turns|
        invariant Valid() && listing == ListingAfter(old(listing), turns[..i]) && |answers| == i
        invariant forall j :: 0 <= j < i ==> IsAnswer(ListingAfter(old(listing), turns[..j]), turns[j], answers[j])
      {
        var answer := Serve(turns[i]);
        answers := answers + [answer];
        assert turns[..i + 1][..i] == turns[..i];
      }
      assert turns[..|turns|] == turns;
    }

    method Serve(turn: Turn) returns (answer: Answer)
      requires Valid() && (turn.FindSite? ==> IsOrderOf(turn.order, Index(listing)))
      modifies this
      ensures Valid() && listing == ListingAfter(old(listing), [turn])
      ensures IsAnswer(old(listing), turn, answer)
    {
      match turn
      case Round(listed) =>
        WatchOnce(listed);
        answer := Nothing;
      case FindSite(domain, order) =>
        var site := GetSiteInfoByDomain(domain, order);
        answer := Site(site);
      case FindConfig(code) =>
        var config := GetSiteConfig(code);
        answer := Config(config);
    }
  }

  // ---------- rounds and lookups ----------

  /** A round of the watch loop, or a lookup; `order` is how the map is iterated. */
  datatype Turn = Round(listed: Option<seq<Pair>>) | FindSite(domain: string, order: seq<string>) | FindConfig(code: string)

  datatype Answer = Nothing | Site(site: Option<SiteInfo>) | Config(config: Option<SiteConfig>)

  /** The listing of the last round that worked. */
  function ListingAfter(start: seq<Pair>, turns: seq<Turn>): seq<Pair> {
    if turns == [] then start
    else
      var last := turns[|turns| - 1];
      if last.Round? && last.listed.Some? then last.listed.value else ListingAfter(start, turns[..|turns| - 1])
  }

  ghost predicate OrdersFit(start: seq<Pair>, turns: seq<Turn>) {
    forall i :: 0 <= i < |turns| && turns[i].FindSite? ==>
      IsOrderOf(turns[i].order, Index(ListingAfter(start, turns[..i])))
  }

  ghost predicate IsAnswer(listing: seq<Pair>, turn: Turn, answer: Answer) {
    match turn
    case Round(_) => answer.Nothing?
    case FindSite(domain, order) =>
      IsOrderOf(order, Index(listing)) && answer == Site(Lookup(Index(listing), order, domain))
    case FindConfig(code) => answer == Config(ConfigOf(listing, code))
  }

  /** What a lookup finds, in terms of the listing: the site of the name itself or,
      failing that, of some listed pattern that matches; nothing if there is none. */
  lemma LookupMeaning(listing: seq<Pair>, order: seq<string>, domain: string)
    requires IsOrderOf(order, Index(listing)) && Normalize(domain) != ""
    ensures var d, site := Normalize(domain), Lookup(Index(listing), order, domain);
      if SiteOf(listing, d).Some? then site == SiteOf(listing, d)
      else if site.None? then forall p :: SiteOf(listing, p).Some? ==> !Matches(p, d)
      else exists p :: Matches(p, d) && site == SiteOf(listing, p)
  {
    var d, m := Normalize(domain), Index(listing);
    var site := Lookup(m, order, domain);
    IndexIndexes(listing, d);
    FirstMatchIsAMatch(m, order, d);
    if SiteOf(listing, d).None? {
      if site.None? {
        forall p | SiteOf(listing, p).Some? ensures !Matches(p, d) { IndexIndexes(listing, p); }
      } else {
        var p :| p in order && Matches(p, d) && site == Some(m[p]);
        IndexIndexes(listing, p);
        assert site == SiteOf(listing, p);
      }
    }
  }

  // ---------- wildcard lookup ----------

  function Normalize(s: string): string {
    TrimSpace(ToLower(s))
  }

  /** The order in which a range loop happens to visit the keys. */
  ghost predicate IsOrderOf(order: seq<string>, m: map<string, SiteInfo>) {
    (forall p :: p in order <==> p in m) && Distinct(order)
  }

  /** A range loop visits no key twice. */
  predicate Distinct(order: seq<string>) {
    forall i, j :: 0 <= i < j < |order| ==> order[i] != order[j]
  }

  predicate IsWildcard(pattern: string) {
    HasPrefix(Normalize(pattern), "*.") && |Normalize(pattern)| > 2
  }

  /** What follows the star: a dot and the suffix. */
  function DotSuffix(pattern: string): string
    requires IsWildcard(pattern)
  {
    Normalize(pattern)[1..]
  }

  predicate Matches(pattern: string, domain: string) {
    var p := Normalize(pattern);
    HasPrefix(p, "*.") && p[2..] != "" && domain != p[2..] && HasSuffix(domain, "." + p[2..])
  }

  function FirstMatch(m: map<string, SiteInfo>, order: seq<string>, domain: string): Option<SiteInfo>
    requires forall p :: p in order ==> p in m
  {
    if order == [] then None
    else if Matches(order[0], domain) then Some(m[order[0]])
    else FirstMatch(m, order[1..], domain)
  }

  function Lookup(m: map<string, SiteInfo>, order: seq<string>, domain: string): Option<SiteInfo>
    requires forall p :: p in order ==> p in m
  {
    var d := Normalize(domain);
    if d == "" then None
    else if d in m then Some(m[d])
    else FirstMatch(m, order, d)
  }

  /** `*.s` matches exactly the hosts x + "." + s. */
  lemma WildcardMeaning(pattern: string, domain: string)
    ensures Matches(pattern, domain) <==>
      IsWildcard(pattern) && exists x :: domain == x + DotSuffix(pattern)
  {
    var p := Normalize(pattern);
    if IsWildcard(pattern) {
      assert "." + p[2..] == p[1..];
      if HasSuffix(domain, p[1..]) {
        assert domain == domain[..|domain| - |p[1..]|] + DotSuffix(pattern);
      }
      if x :| domain == x + DotSuffix(pattern) {
        assert |domain| > |p[2..]|;
      }
    }
  }

  lemma {:induction false} FirstMatchIsAMatch(m: map<string, SiteInfo>, order: seq<string>, d: string)
    requires forall p :: p in order ==> p in m
    ensures FirstMatch(m, order, d).Some? ==>
      exists p :: p in order && Matches(p, d) && FirstMatch(m, order, d) == Some(m[p])
    ensures FirstMatch(m, order, d).None? ==> forall p :: p in order ==> !Matches(p, d)
  {
    if order != [] && !Matches(order[0], d) {
      FirstMatchIsAMatch(m, order[1..], d);
    }
  }

  /** No two wildcard patterns of different sites have comparable suffixes. */
  ghost predicate Unambiguous(m: map<string, SiteInfo>) {
    forall p, q :: p in m && q in m && IsWildcard(p) && IsWildcard(q) && HasSuffix(DotSuffix(p), DotSuffix(q)) ==>
      m[p] == m[q]
  }

  /** The lookup of every domain without an exact entry has one answer, whatever
      the iteration order. */
  ghost predicate OrderIndependent(m: map<string, SiteInfo>) {
    forall domain, order1, order2 ::
      Normalize(domain) !in m && IsOrderOf(order1, m) && IsOrderOf(order2, m) ==>
        Lookup(m, order1, domain) == Lookup(m, order2, domain)
  }

  /** Two patterns that match one domain have comparable suffixes. */
  lemma CommonMatchComparable(p: string, q: string, d: string)
    requires Matches(p, d) && Matches(q, d)
    ensures IsWildcard(p) && IsWildcard(q)
    ensures HasSuffix(DotSuffix(p), DotSuffix(q)) || HasSuffix(DotSuffix(q), DotSuffix(p))
  {
    WildcardMeaning(p, d);
    WildcardMeaning(q, d);
    var x :| d == x + DotSuffix(p);
    var y :| d == y + DotSuffix(q);
    if |x| <= |y| {
      assert DotSuffix(p)[|y| - |x|..] == d[|y|..] == DotSuffix(q);
    } else {
      assert DotSuffix(q)[|x| - |y|..] == d[|x|..] == DotSuffix(p);
    }
  }

  lemma UnambiguousIsIndependent(m: map<string, SiteInfo>, domain: string, order1: seq<string>, order2: seq<string>)
    requires Unambiguous(m) && Normalize(domain) !in m && IsOrderOf(order1, m) && IsOrderOf(order2, m)
    ensures Lookup(m, order1, domain) == Lookup(m, order2, domain)
  {
    var d := Normalize(domain);
    FirstMatchIsAMatch(m, order1, d);
    FirstMatchIsAMatch(m, order2, d);
    if FirstMatch(m, order1, d).Some? && FirstMatch(m, order2, d).Some? {
      var p :| p in order1 && Matches(p, d) && FirstMatch(m, order1, d) == Some(m[p]);
      var q :| q in order2 && Matches(q, d) && FirstMatch(m, order2, d) == Some(m[q]);
      CommonMatchComparable(p, q, d);
    }
  }

  // ---------- an ambiguous pair is visible ----------

  function As(n: nat): string {
    if n == 0 then "" else As(n - 1) + "a"
  }

  lemma {:induction false} AsAre(n: nat)
    ensures |As(n)| == n && forall i :: 0 <= i < n ==> As(n)[i] == 'a'
  {
    if n > 0 { AsAre(n - 1); }
  }

  /** Only finitely many keys: some host under the suffix is not one of them. */
  lemma {:induction false} FreshHost(keys: set<string>, suffix: string) returns (n: nat)
    ensures n > 0 && As(n) + suffix !in keys
    ensures forall k :: k in keys ==> |k| < n
  {
    if k :| k in keys {
      var n' := FreshHost(keys - {k}, suffix);
      n := if n' > |k| then n' else |k| + 1;
      AsAre(n);
      assert forall o :: o in keys ==> o == k || o in keys - {k};
    } else {
      n := 1;
    }
    AsAre(n);
  }

  /** A host made of a's under a normalised suffix is itself normalised. */
  lemma HostIsNormal(n: nat, pattern: string)
    requires n > 0 && IsWildcard(pattern)
    ensures Normalize(As(n) + DotSuffix(pattern)) == As(n) + DotSuffix(pattern)
  {
    var p := Normalize(pattern);
    var host := As(n) + DotSuffix(pattern);
    AsAre(n);
    NormalIsLower(pattern);
    TrimSpaceTrims(ToLower(pattern));
    forall i | 0 <= i < |host| ensures LowerChar(host[i]) == host[i] {
      if i >= n { assert host[i] == p[i - n + 1]; }
    }
    assert ToLower(host) == host;
    assert host[|host| - 1] == p[|p| - 1];
    TrimSpaceTrims(host);
  }

  lemma {:induction false} TrimIsSlice(s: string)
    ensures forall c :: c in TrimSpace(s) ==> c in s
  {
    LeftIsSlice(s);
    TrimRightTrims(TrimLeft(s));
  }

  lemma LeftIsSlice(s: string)
    ensures forall c :: c in TrimLeft(s) ==> c in s
  {}

  lemma NormalIsLower(s: string)
    ensures forall i :: 0 <= i < |Normalize(s)| ==> LowerChar(Normalize(s)[i]) == Normalize(s)[i]
  {
    TrimIsSlice(ToLower(s));
    forall i | 0 <= i < |Normalize(s)| ensures LowerChar(Normalize(s)[i]) == Normalize(s)[i] {
      assert Normalize(s)[i] in ToLower(s);
    }
  }

  lemma NormalizeTwice(s: string)
    ensures Normalize(Normalize(s)) == Normalize(s)
  {
    NormalIsLower(s);
    assert ToLower(Normalize(s)) == Normalize(s);
    TrimSpaceTrims(ToLower(s));
    TrimSpaceTrims(Normalize(s));
  }

  /** Letter case and surrounding blanks of a requested domain do not matter. */
  lemma CaseAndBlanksAreIgnored(m: map<string, SiteInfo>, order: seq<string>, before: string, d: string, after: string)
    requires forall p :: p in order ==> p in m
    requires Trimmed(d) && (forall c :: c in before + after ==> IsSpace(c))
    ensures Lookup(m, order, before + ToUpper(d) + after) == Lookup(m, order, d)
    ensures Lookup(m, order, before + d + after) == Lookup(m, order, d)
  {
    PaddedName(before, d, after);
    PaddedName(before, ToUpper(d), after);
    PaddedName("", d, "");
    assert "" + d + "" == d;
    assert ToLower(ToUpper(d)) == ToLower(d);
  }

  lemma PaddedName(before: string, d: string, after: string)
    requires Trimmed(d) && (forall c :: c in before + after ==> IsSpace(c))
    ensures Normalize(before + d + after) == ToLower(d)
  {
    forall c | c in before || c in after ensures IsSpace(c) { assert c in before + after; }
    SpacesHaveNoCase(before);
    SpacesHaveNoCase(after);
    assert ToLower(before + d + after) == before + ToLower(d) + after;
    TrimSpaceIs(before, ToLower(d), after);
  }

  lemma SpacesHaveNoCase(s: string)
    requires forall c :: c in s ==> IsSpace(c)
    ensures ToLower(s) == s
  {
    forall i | 0 <= i < |s| ensures ToLower(s)[i] == s[i] { assert IsSpace(s[i]); }
  }

  /** Only the domain of a request is normalised, not the listed ones: an entry is
      found by name if and only if it was listed in lower case without blanks. */
  lemma ListedNameFoundIff(m: map<string, SiteInfo>, listed: string, order: seq<string>)
    requires listed in m && listed != "" && IsOrderOf(order, m)
    ensures (exists domain :: Normalize(domain) == listed) <==> Normalize(listed) == listed
    ensures Normalize(listed) == listed ==> Lookup(m, order, listed) == Some(m[listed])
  {
    if domain :| Normalize(domain) == listed {
      NormalizeTwice(domain);
    }
  }

  /** An iteration order that visits the given key first. */
  lemma {:induction false} OrderStartingWith(m: map<string, SiteInfo>, first: string) returns (order: seq<string>)
    requires first in m
    ensures IsOrderOf(order, m) && |order| > 0 && order[0] == first
  {
    order := SomeOrder(m.Keys - {first});
    order := [first] + order;
  }

  lemma {:induction false} SomeOrder(keys: set<string>) returns (order: seq<string>)
    ensures (forall k :: k in order <==> k in keys) && Distinct(order)
  {
    if k :| k in keys {
      order := SomeOrder(keys - {k});
      order := [k] + order;
    } else {
      order := [];
    }
  }

  lemma AmbiguityShows(m: map<string, SiteInfo>, p: string, q: string)
    requires p in m && q in m && IsWildcard(p) && IsWildcard(q) && HasSuffix(DotSuffix(p), DotSuffix(q)) && m[p] != m[q]
    ensures !OrderIndependent(m)
  {
    var n := FreshHost(m.Keys, DotSuffix(p));
    var host := As(n) + DotSuffix(p);
    HostIsNormal(n, p);
    WildcardMeaning(p, host);
    WildcardMeaning(q, host);
    assert host == (As(n) + DotSuffix(p)[..|DotSuffix(p)| - |DotSuffix(q)|]) + DotSuffix(q);
    assert Matches(p, host) && Matches(q, host);
    var order1 := OrderStartingWith(m, p);
    var order2 := OrderStartingWith(m, q);
    assert Lookup(m, order1, host) == Some(m[p]) && Lookup(m, order2, host) == Some(m[q]);
  }

  /** Main result: wildcard lookup does not depend on the map's iteration order if
      and only if no two patterns of different sites have comparable suffixes. */
  lemma OrderIndependentIff(m: map<string, SiteInfo>)
    ensures OrderIndependent(m) <==> Unambiguous(m)
  {
    if Unambiguous(m) {
      forall domain, order1, order2 | Normalize(domain) !in m && IsOrderOf(order1, m) && IsOrderOf(order2, m)
        ensures Lookup(m, order1, domain) == Lookup(m, order2, domain)
      {
        UnambiguousIsIndependent(m, domain, order1, order2);
      }
    } else {
      var p, q :| p in m && q in m && IsWildcard(p) && IsWildcard(q) && HasSuffix(DotSuffix(p), DotSuffix(q)) && m[p] != m[q];
      AmbiguityShows(m, p, q);
    }
  }
}
