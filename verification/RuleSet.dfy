/** The compiled ACL: an ordered list of rules of which the first match decides, behind a
    cache keyed by the text "name|ipv4|ipv6" of the host. */
module RuleSet {
  import opened Text
  import opened NetIp
  import opened GeoIp
  import Wildcard

  datatype HostInfo = HostInfo(name: string, ipv4: IP, ipv6: IP)

  datatype Protocol = Both | Tcp | Udp

  datatype DomainMode = Exact | Wild | Suffix

  /** What a rule may look at. GeoSite matching sees only the name. */
  datatype HostMatcher =
    | All
    | Address(ip: IP)
    | Network(net: Cidr)
    | Domain(pattern: string, mode: DomainMode)
    | GeoCountry(geo: GeoIp.Matcher)
    | GeoSite(accepts: string -> bool)

  /** `strings.ToLower` and `idna.ToUnicode` (which falls back to the name itself). */
  datatype Library = Library(lower: string -> string, unicode: string -> string)

  ghost predicate Accepts(lib: Library, m: HostMatcher, h: HostInfo) {
    match m
    case All => true
    case Address(ip) => Norm(ip) in {Norm(h.ipv4), Norm(h.ipv6)}
    case Network(net) => Contains(net, h.ipv4) || Contains(net, h.ipv6)
    case Domain(p, Exact) => lib.unicode(h.name) == p
    case Domain(p, Wild) => Wildcard.Matches(lib.unicode(h.name), p)
    case Domain(p, Suffix) => InDomain(lib.unicode(h.name), p)
    case GeoCountry(geo) => GeoIp.Match(geo, h.ipv4, h.ipv6)
    case GeoSite(accepts) => accepts(h.name)
  }

  /** The name is the domain itself or one of its subdomains. */
  ghost predicate InDomain(name: string, domain: string) {
    name == domain || exists front: string :: name == front + ("." + domain)
  }

  predicate HasSuffix(s: string, suffix: string) {
    |s| >= |suffix| && s[|s| - |suffix|..] == suffix
  }

  datatype Rule<O> = Rule(
    outbound: O, matcher: HostMatcher, protocol: Protocol, startPort: nat, endPort: nat, hijack: IP)

  datatype Verdict<O> = NoMatch | Verdict(outbound: O, hijack: IP)

  /** Start port 0 means any port. */
  ghost predicate Applies<O>(lib: Library, r: Rule<O>, h: HostInfo, proto: Protocol, port: nat) {
    && (r.protocol == Both || r.protocol == proto)
    && (r.startPort == 0 || r.startPort <= port <= r.endPort)
    && Accepts(lib, r.matcher, h)
  }

  /** The reference: the verdict of the first of the rules from `i` on that applies. */
  ghost function FirstMatch<O>(
    lib: Library, rules: seq<Rule<O>>, i: nat, h: HostInfo, proto: Protocol, port: nat): Verdict<O>
    requires i <= |rules|
    decreases |rules| - i
  {
    if i == |rules| then NoMatch
    else if Applies(lib, rules[i], h, proto, port) then Verdict(rules[i].outbound, rules[i].hijack)
    else FirstMatch(lib, rules, i + 1, h, proto, port)
  }

  /** The verdict is that of the rule with the least index of those whose protocol, ports (0 as the
      start meaning any) and matcher fit the request; and there is none exactly when none fits. */
  lemma {:induction false} FirstMatchIsLeast<O>(
    lib: Library, rules: seq<Rule<O>>, i: nat, h: HostInfo, proto: Protocol, port: nat)
    requires i <= |rules|
    ensures forall j :: i <= j < |rules| && FitsRequest(lib, rules[j], h, proto, port)
                        && (forall k :: i <= k < j ==> !FitsRequest(lib, rules[k], h, proto, port)) ==>
              FirstMatch(lib, rules, i, h, proto, port) == Verdict(rules[j].outbound, rules[j].hijack)
    ensures FirstMatch(lib, rules, i, h, proto, port) == NoMatch <==>
            forall j :: i <= j < |rules| ==> !FitsRequest(lib, rules[j], h, proto, port)
    decreases |rules| - i
  {
    if i == |rules| {
    } else {
      FirstMatchIsLeast(lib, rules, i + 1, h, proto, port);
    }
  }

  ghost predicate FitsRequest<O>(lib: Library, r: Rule<O>, h: HostInfo, proto: Protocol, port: nat) {
    && Accepts(lib, r.matcher, h)
    && !(r.protocol != Both && r.protocol != proto)
    && !(r.startPort != 0 && (port < r.startPort || port > r.endPort))
  }

  // ---------- the key ----------

  function HostKey(h: HostInfo): string {
    h.name + "|" + ToText(h.ipv4) + "|" + ToText(h.ipv6)
  }

  /** The key determines the name and, up to their form, both addresses, even if the name
      contains bars. */
  lemma KeyDeterminesHost(h: HostInfo, h': HostInfo)
    requires HostKey(h) == HostKey(h')
    ensures h.name == h'.name && Equal(h.ipv4, h'.ipv4) && Equal(h.ipv6, h'.ipv6)
  {
    TextBack(h.ipv4);
    TextBack(h.ipv6);
    TextBack(h'.ipv4);
    TextBack(h'.ipv6);
    AfterLast(h.name + "|" + ToText(h.ipv4), ToText(h.ipv6), h'.name + "|" + ToText(h'.ipv4), ToText(h'.ipv6), '|');
    AfterLast(h.name, ToText(h.ipv4), h'.name, ToText(h'.ipv4), '|');
    SameTextSameAddress(h.ipv4, h'.ipv4);
    SameTextSameAddress(h.ipv6, h'.ipv6);
  }

  lemma ContainsCongruent(n: Cidr, a: IP, b: IP)
    requires Equal(a, b)
    ensures Contains(n, a) == Contains(n, b)
  {
    EqualIsSameNorm(a, b);
  }

  lemma GeoCongruent(m: GeoIp.Matcher, a: IP, b: IP)
    requires Equal(a, b)
    ensures GeoIp.MatchIP(m, a) == GeoIp.MatchIP(m, b) && (a == [] <==> b == [])
  {
    EqualIsSameNorm(a, b);
  }

  /** Every matcher gives hosts with the same key the same answer. */
  lemma KeyDeterminesAnswer(lib: Library, m: HostMatcher, h: HostInfo, h': HostInfo)
    requires HostKey(h) == HostKey(h')
    ensures Accepts(lib, m, h) == Accepts(lib, m, h')
  {
    KeyDeterminesHost(h, h');
    SameHostSameAnswer(lib, m, h, h');
  }

  lemma SameHostSameAnswer(lib: Library, m: HostMatcher, h: HostInfo, h': HostInfo)
    requires h.name == h'.name && Equal(h.ipv4, h'.ipv4) && Equal(h.ipv6, h'.ipv6)
    ensures Accepts(lib, m, h) == Accepts(lib, m, h')
  {
    match m
    case Address(ip) => EqualIsSameNorm(h.ipv4, h'.ipv4); EqualIsSameNorm(h.ipv6, h'.ipv6);
    case Network(n) => ContainsCongruent(n, h.ipv4, h'.ipv4); ContainsCongruent(n, h.ipv6, h'.ipv6);
    case GeoCountry(geo) => GeoCongruent(geo, h.ipv4, h'.ipv4); GeoCongruent(geo, h.ipv6, h'.ipv6);
    case _ =>
  }

  lemma {:induction false} KeyDeterminesVerdict<O>(lib: Library, rules: seq<Rule<O>>, i: nat, h: HostInfo, h': HostInfo,
                                                  proto: Protocol, port: nat)
    requires HostKey(h) == HostKey(h') && i <= |rules|
    ensures FirstMatch(lib, rules, i, h, proto, port) == FirstMatch(lib, rules, i, h', proto, port)
    decreases |rules| - i
  {
    if i == |rules| {
    } else {
      KeyDeterminesAnswer(lib, rules[i].matcher, h, h');
      KeyDeterminesVerdict(lib, rules, i + 1, h, h', proto, port);
    }
  }

  /** What a country rule means, for a matcher built from a database of disjoint blocks: one of
      the host's addresses is in a network of the database, or none is for an inverse rule.
      Addresses hidden by IPv4-mapped networks are the exception. */
  lemma CountryMeansDatabase(lib: Library, geo: GeoIp.Matcher, list: seq<Cidr>, h: HostInfo)
    requires Built(geo, list) && Disjoint(list) && !Hidden(list, h.ipv4) && !Hidden(list, h.ipv6)
    ensures Accepts(lib, GeoCountry(geo), h) <==>
            (SomeContains(list, h.ipv4) || SomeContains(list, h.ipv6)) != geo.inverse
  {
    MatchMeansDatabase(geo, list, h.ipv4, h.ipv6);
  }

  // ---------- the cached rule set ----------

  datatype CacheKey = CacheKey(host: string, proto: Protocol, port: nat)

  function TrimDots(s: string): string {
    if s != [] && s[|s| - 1] == '.' then TrimDots(s[..|s| - 1]) else s
  }

  /** All trailing dots go, and nothing else. */
  lemma {:induction false} TrimDotsTrims(s: string)
    ensures TrimDots(s) <= s && (forall i :: |TrimDots(s)| <= i < |s| ==> s[i] == '.')
    ensures TrimDots(s) != [] ==> TrimDots(s)[|TrimDots(s)| - 1] != '.'
  {
    if s == [] || s[|s| - 1] != '.' {
    } else {
      TrimDotsTrims(s[..|s| - 1]);
    }
  }

  function Normalised(lib: Library, h: HostInfo): HostInfo {
    h.(name := TrimDots(lib.lower(h.name)))
  }

  /** The host that is looked up: the name in lower case without trailing dots, and the addresses. */
  lemma NormalisedIs(lib: Library, h: HostInfo)
    ensures var n, low := Normalised(lib, h), lib.lower(h.name);
            && n.ipv4 == h.ipv4 && n.ipv6 == h.ipv6 && n.name <= low
            && (forall i :: |n.name| <= i < |low| ==> low[i] == '.')
            && (n.name != [] ==> n.name[|n.name| - 1] != '.')
  {
    TrimDotsTrims(lib.lower(h.name));
  }

  lemma SuffixIs(s: string, suffix: string)
    ensures HasSuffix(s, suffix) <==> exists front: string :: s == front + suffix
  {
    if HasSuffix(s, suffix) {
      assert s == s[..|s| - |suffix|] + suffix;
    }
  }

  method Evaluate(lib: Library, m: HostMatcher, h: HostInfo) returns (r: bool)
    ensures r <==> Accepts(lib, m, h)
  {
    match m
    case All => return true;
    case Address(ip) =>
      EqualIsSameNorm(ip, h.ipv4);
      EqualIsSameNorm(ip, h.ipv6);
      return Equal(ip, h.ipv4) || Equal(ip, h.ipv6);
    case Network(net) => return Contains(net, h.ipv4) || Contains(net, h.ipv6);
    case Domain(p, Exact) => return lib.unicode(h.name) == p;
    case Domain(p, Wild) => r := Wildcard.DeepMatchRune(lib.unicode(h.name), p);
    case Domain(p, Suffix) =>
      SuffixIs(lib.unicode(h.name), "." + p);
      return lib.unicode(h.name) == p || HasSuffix(lib.unicode(h.name), "." + p);
    case GeoCountry(geo) => return GeoIp.Match(geo, h.ipv4, h.ipv6);
    case GeoSite(accepts) => return accepts(h.name);
  }

  class Compiled<O(!new)> {
    const lib: Library
    const rules: seq<Rule<O>>
    const size: nat
    var cache: map<CacheKey, Verdict<O>>

    constructor (lib: Library, rules: seq<Rule<O>>, size: nat)
      requires size > 0
      ensures this.lib == lib && this.rules == rules && this.size == size && Valid()
    {
      this.lib, this.rules, this.size, this.cache := lib, rules, size, map[];
    }

    /** Every entry is what a scan of the rules gives any host with that key. */
    ghost predicate Valid()
      reads this
    {
      && 0 < size && |cache| <= size
      && forall h, proto, port :: CacheKey(HostKey(h), proto, port) in cache ==>
           cache[CacheKey(HostKey(h), proto, port)] == FirstMatch(lib, rules, 0, h, proto, port)
    }

    /** Any entry may be evicted at any time. */
    method Evict(k: CacheKey)
      requires Valid()
      modifies this`cache
      ensures Valid() && cache == old(cache) - {k}
    {
      assert (cache - {k}).Keys == cache.Keys - {k};
      cache := cache - {k};
    }

    method Add(ghost h: HostInfo, k: CacheKey, v: Verdict<O>)
      requires Valid() && k.host == HostKey(h)
      requires v == FirstMatch(lib, rules, 0, h, k.proto, k.port)
      modifies this`cache
      ensures Valid() && k in cache
    {
      if k !in cache && |cache| == size {
        var victim :| victim in cache;
        Evict(victim);
      }
      forall h', proto, port | CacheKey(HostKey(h'), proto, port) == k
        ensures v == FirstMatch(lib, rules, 0, h', proto, port)
      {
        KeyDeterminesVerdict(lib, rules, 0, h, h', proto, port);
      }
      cache := cache[k := v];
    }

    /** The cached lookup refines the plain scan: whatever was looked up and evicted before,
        the verdict is that of the first rule that applies to the normalised host. */
    method Match(host: HostInfo, proto: Protocol, port: nat) returns (v: Verdict<O>)
      requires Valid()
      modifies this`cache
      ensures Valid()
      ensures v == FirstMatch(lib, rules, 0, Normalised(lib, host), proto, port)
      ensures CacheKey(HostKey(Normalised(lib, host)), proto, port) in cache
      ensures CacheKey(HostKey(Normalised(lib, host)), proto, port) in old(cache) ==> cache == old(cache)
    {
      var h := Normalised(lib, host);
      var key := CacheKey(HostKey(h), proto, port);
      if key in cache {
        return cache[key];
      }
      for i := 0 to |rules|
        invariant Valid() && cache == old(cache)
        invariant FirstMatch(lib, rules, i, h, proto, port) == FirstMatch(lib, rules, 0, h, proto, port)
      {
        var rule := rules[i];
        var anyPort := rule.startPort == 0;
        if (rule.protocol == Both || rule.protocol == proto) && (anyPort || rule.startPort <= port <= rule.endPort) {
          var hit := Evaluate(lib, rule.matcher, h);
          if hit {
            v := Verdict(rule.outbound, rule.hijack);
            Add(h, key, v);
            return;
          }
        }
      }
      v := NoMatch;
      Add(h, key, v);
    }
  }
}
