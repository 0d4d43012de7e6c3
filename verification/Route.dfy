/** The routing policy of the server: resolve, ask the ACL, filter private destinations,
    and choose what address to hand to the outbound. */
module Route {
  import opened Numerals
  import opened NetIp
  import opened RuleSet
  import opened Text

  /** `netip.Addr`; `NoAddr` is its invalid zero value. */
  datatype AnyAddr = NoAddr | V4(bytes: IP) | V6(bytes: IP)

  type Addr = a: AnyAddr | (a.V4? ==> |a.bytes| == 4) && (a.V6? ==> |a.bytes| == 16) witness NoAddr

  datatype Dest = Name(fqdn: string, port: nat) | At(addr: Addr, port: nat)

  datatype Outbound = Reject | Outbound(id: nat, remote: bool)

  /** What a resolver answered; nil addresses are empty. */
  datatype Answer = Answer(ipv4: IP, ipv6: IP)

  type Lookup = (HostInfo, Protocol, nat) -> (Outbound, IP)

  datatype Policy = Policy(
    acl: Option<Lookup>,
    customResolver: bool,
    blockPrivate: bool,
    fallback: Outbound,
    isPrivate: Addr -> bool)

  datatype Decision = Rejected | Unresolved | PrivateTarget | Accepted(outbound: Outbound, target: Dest)

  predicate RemoteResolve(o: Outbound) {
    o.Outbound? && o.remote
  }

  /** `ipToNetip`: an address of any other length is invalid. */
  function ToAddr(ip: IP): Addr {
    if |Norm(ip)| == 4 then V4(Norm(ip)) else if |ip| == 16 then V6(ip) else NoAddr
  }

  function Bytes(a: Addr): IP {
    if a.NoAddr? then [] else a.bytes
  }

  // ---------- the decision procedure ----------

  datatype Hosted = Hosted(name: string, result: Answer, attempted: bool)

  /** An address as its own answer. */
  function Literal(a: Addr): Answer {
    if a.V4? then Answer(a.bytes, []) else Answer([], Bytes(a))
  }

  /** `answer` is what the resolver says if it is asked. */
  function HostInfoOf(p: Policy, d: Dest, answer: Answer): Hosted {
    match d
    case At(addr, _) => Hosted(ToText(Bytes(addr)), Literal(addr), false)
    case Name(fqdn, _) =>
      if !p.customResolver && p.acl.None? && !p.blockPrivate then Hosted(fqdn, Answer([], []), false)
      else Hosted(fqdn, answer, true)
  }

  function PickDialAddr(d: Dest, result: Answer, attempted: bool): Option<Dest> {
    if result.ipv4 != [] then Some(At(ToAddr(result.ipv4), d.port))
    else if result.ipv6 != [] then Some(At(ToAddr(result.ipv6), d.port))
    else if attempted then None
    else Some(d)
  }

  predicate PrivateIP(p: Policy, ip: IP) {
    ip != [] && p.isPrivate(ToAddr(ip))
  }

  predicate ReachesPrivate(p: Policy, o: Outbound, addr: Dest, result: Answer) {
    if RemoteResolve(o) then PrivateIP(p, result.ipv4) || PrivateIP(p, result.ipv6)
    else addr.At? && addr.addr != NoAddr && p.isPrivate(addr.addr)
  }

  /** What the ACL says: the outbound, and an address to go to instead, if not nil. */
  function Consult(p: Policy, d: Dest, answer: Answer, proto: Protocol): (Outbound, IP) {
    var h := HostInfoOf(p, d, answer);
    match p.acl
    case None => (p.fallback, [])
    case Some(lookup) => lookup(HostInfo(h.name, h.result.ipv4, h.result.ipv6), proto, d.port)
  }

  function SelectRoute(p: Policy, d: Dest, answer: Answer, proto: Protocol): Decision {
    var h := HostInfoOf(p, d, answer);
    var (o, hijack) := Consult(p, d, answer, proto);
    if p.acl.Some? && o.Reject? then Rejected
    else if p.acl.Some? && hijack != [] then Accepted(o, At(ToAddr(hijack), d.port))
    else
      match PickDialAddr(d, h.result, h.attempted)
      case None => if !RemoteResolve(o) || p.blockPrivate then Unresolved else Accepted(o, d)
      case Some(addr) =>
        if p.blockPrivate && ReachesPrivate(p, o, addr, h.result) then PrivateTarget
        else if RemoteResolve(o) then Accepted(o, d)
        else Accepted(o, addr)
  }

  // ---------- the ACL's say ----------

  /** The ACL's answer to the right question: the host's name, which for an address is its text,
      and the addresses it stands for by family. */
  function Asked(p: Policy, d: Dest, answer: Answer, proto: Protocol): (Outbound, IP)
    requires p.acl.Some?
  {
    match d
    case Name(fqdn, port) => p.acl.value(HostInfo(fqdn, answer.ipv4, answer.ipv6), proto, port)
    case At(V4(ip), port) => p.acl.value(HostInfo(ToText(ip), ip, []), proto, port)
    case At(V6(ip), port) => p.acl.value(HostInfo(ToText(ip), [], ip), proto, port)
    case At(NoAddr, port) => p.acl.value(HostInfo(ToText([]), [], []), proto, port)
  }

  lemma ConsultIsAsked(p: Policy, d: Dest, answer: Answer, proto: Protocol)
    ensures Consult(p, d, answer, proto) == if p.acl.Some? then Asked(p, d, answer, proto) else (p.fallback, [])
  {
  }

  /** Whatever the destination, the answer, the protocol and the filter, a request is rejected
      exactly when the ACL answers with the rejecting outbound; and a redirect is followed, with
      the ACL's outbound and to the address of the redirect. */
  lemma AclIsObeyed(p: Policy, d: Dest, answer: Answer, proto: Protocol)
    ensures SelectRoute(p, d, answer, proto).Rejected? <==> p.acl.Some? && Asked(p, d, answer, proto).0.Reject?
    ensures p.acl.Some? && !Asked(p, d, answer, proto).0.Reject? && Asked(p, d, answer, proto).1 != [] ==>
              SelectRoute(p, d, answer, proto) ==
              Accepted(Asked(p, d, answer, proto).0, At(ToAddr(Asked(p, d, answer, proto).1), d.port))
  {
    ConsultIsAsked(p, d, answer, proto);
  }

  /** Without the filter, a request that no rule rejects or redirects goes to the ACL's outbound,
      or to the only one if there is no ACL: with the destination as it came if the outbound
      resolves names itself, or if nobody has looked the name up; and otherwise to the first
      address the destination stands for, if there is any. */
  lemma UnfilteredRoute(p: Policy, d: Dest, answer: Answer, proto: Protocol)
    requires !p.blockPrivate
    requires p.acl.Some? ==> !Asked(p, d, answer, proto).0.Reject? && Asked(p, d, answer, proto).1 == []
    ensures var o := if p.acl.Some? then Asked(p, d, answer, proto).0 else p.fallback;
            var all := Addresses(d, answer);
            SelectRoute(p, d, answer, proto) ==
            if RemoteResolve(o) || (d.Name? && !p.customResolver && p.acl.None?) then Accepted(o, d)
            else if all == [] then Unresolved
            else Accepted(o, At(all[0], d.port))
  {
    ConsultIsAsked(p, d, answer, proto);
    var all := Addresses(d, answer);
    if d.At? {
      assert all[0] == ToAddr(Bytes(d.addr));
    } else if answer.ipv4 != [] {
      assert all[0] == ToAddr(answer.ipv4);
    } else if answer.ipv6 != [] {
      assert all[0] == ToAddr(answer.ipv6);
    }
  }

  // ---------- the reference ----------

  /** The addresses a destination stands for, in order of preference. */
  function Addresses(d: Dest, answer: Answer): seq<Addr> {
    match d
    case At(addr, _) => [ToAddr(Bytes(addr))]
    case Name(_, _) =>
      (if answer.ipv4 != [] then [ToAddr(answer.ipv4)] else [])
      + (if answer.ipv6 != [] then [ToAddr(answer.ipv6)] else [])
  }

  predicate Public(p: Policy, a: Addr) {
    a != NoAddr && !p.isPrivate(a)
  }

  /** A name, or an address that is valid. */
  predicate ValidDest(d: Dest) {
    d.At? ==> d.addr != NoAddr
  }

  predicate ValidIP(ip: IP) {
    |ip| in {0, 4, 16}
  }

  predicate ValidAnswer(a: Answer) {
    ValidIP(a.ipv4) && ValidIP(a.ipv6)
  }

  /** Neither rejected nor redirected by a rule. */
  predicate Ordinary(p: Policy, d: Dest, answer: Answer, proto: Protocol) {
    p.acl.Some? ==> var (o, hijack) := Consult(p, d, answer, proto); !o.Reject? && hijack == []
  }

  ghost predicate AllPublic(p: Policy, all: seq<Addr>) {
    forall i :: 0 <= i < |all| ==> Public(p, all[i])
  }

  /** The decision is the right one for outbound `o` and a destination that stands for `all`:
      unresolved without any address; accepted exactly when every address the outbound may
      reach is public (the first one for an outbound that dials it, all of them for one that
      resolves the name again), and the former is handed that address, the latter the
      destination; and otherwise refused as private. */
  ghost predicate FilteredRight(p: Policy, d: Dest, o: Outbound, all: seq<Addr>, r: Decision) {
    if all == [] then r == Unresolved
    else if RemoteResolve(o) then r == if AllPublic(p, all) then Accepted(o, d) else PrivateTarget
    else r == if Public(p, all[0]) then Accepted(o, At(all[0], d.port)) else PrivateTarget
  }

  lemma FilteredAddress(p: Policy, d: Dest, answer: Answer, proto: Protocol)
    requires p.blockPrivate && d.At? && Ordinary(p, d, answer, proto)
    ensures ValidDest(d) <==>
            FilteredRight(p, d, Consult(p, d, answer, proto).0, Addresses(d, answer), SelectRoute(p, d, answer, proto))
  {
    var all := Addresses(d, answer);
    assert all == [ToAddr(Bytes(d.addr))] && all[0] == ToAddr(Bytes(d.addr));
    assert ValidDest(d) <==> all[0] != NoAddr;
  }

  lemma FilteredName(p: Policy, d: Dest, answer: Answer, proto: Protocol)
    requires p.blockPrivate && d.Name? && ValidAnswer(answer) && Ordinary(p, d, answer, proto)
    ensures FilteredRight(p, d, Consult(p, d, answer, proto).0, Addresses(d, answer), SelectRoute(p, d, answer, proto))
  {
    var all := Addresses(d, answer);
    if answer.ipv4 != [] {
      assert all[0] == ToAddr(answer.ipv4) != NoAddr;
      assert answer.ipv6 != [] ==> all[1] == ToAddr(answer.ipv6) != NoAddr;
    } else if answer.ipv6 != [] {
      assert all == [ToAddr(answer.ipv6)] && all[0] == ToAddr(answer.ipv6) != NoAddr;
    }
  }

  /** With the private filter on, the decision on a request that no rule rejects or redirects
      is the right one for all addresses the destination stands for, exactly when the
      destination is a name or a valid address. */
  lemma PrivateFilterIsExact(p: Policy, d: Dest, answer: Answer, proto: Protocol)
    requires p.blockPrivate && ValidAnswer(answer) && Ordinary(p, d, answer, proto)
    ensures ValidDest(d) <==>
            FilteredRight(p, d, Consult(p, d, answer, proto).0, Addresses(d, answer), SelectRoute(p, d, answer, proto))
  {
    if d.At? {
      FilteredAddress(p, d, answer, proto);
    } else {
      FilteredName(p, d, answer, proto);
    }
  }

  /** A destination that is neither a name nor a valid address is not looked up and passes. */
  lemma InvalidDestinationPasses(p: Policy, port: nat, answer: Answer, proto: Protocol)
    requires Ordinary(p, At(NoAddr, port), answer, proto)
    ensures var d := At(NoAddr, port);
            SelectRoute(p, d, answer, proto) == Accepted(Consult(p, d, answer, proto).0, d)
  {
  }

  /** Whatever is accepted, an outbound that does not resolve names gets one exactly when the
      destination is a name and nothing asked for its addresses: no custom resolver, no ACL
      and no private filter. In particular never with a custom resolver. */
  lemma LocalOutboundGetsNameExactlyWhen(p: Policy, d: Dest, answer: Answer, proto: Protocol)
    ensures var r := SelectRoute(p, d, answer, proto);
            r.Accepted? && !RemoteResolve(r.outbound) ==>
              (r.target.Name? <==> d.Name? && !p.customResolver && p.acl.None? && !p.blockPrivate)
  {
  }

  /** The safety the filter is for: an outbound that dials itself gets a public address, and a
      name goes only to an outbound that resolves it, after at least one address was found and
      all found were public. */
  ghost predicate SafeTarget(p: Policy, d: Dest, answer: Answer, r: Decision)
    requires r.Accepted?
  {
    if RemoteResolve(r.outbound)
    then r.target == d && Addresses(d, answer) != [] && AllPublic(p, Addresses(d, answer))
    else r.target.At? && Public(p, r.target.addr)
  }

  /** Whatever is accepted is safe; redirects are exempt. */
  ghost predicate Safe(p: Policy, d: Dest, answer: Answer, proto: Protocol, r: Decision) {
    r.Accepted? && Ordinary(p, d, answer, proto) ==> SafeTarget(p, d, answer, r)
  }

  /** With the private filter on, an accepted route that is no redirect is safe exactly when
      the destination is a name or a valid address. */
  lemma AcceptedRoutesAreSafe(p: Policy, d: Dest, answer: Answer, proto: Protocol)
    requires p.blockPrivate && ValidAnswer(answer)
    ensures ValidDest(d) ==> Safe(p, d, answer, proto, SelectRoute(p, d, answer, proto))
    ensures SelectRoute(p, d, answer, proto).Accepted? && Ordinary(p, d, answer, proto) ==>
              (SafeTarget(p, d, answer, SelectRoute(p, d, answer, proto)) <==> ValidDest(d))
  {
    if Ordinary(p, d, answer, proto) {
      PrivateFilterIsExact(p, d, answer, proto);
      if !ValidDest(d) {
        InvalidDestinationPasses(p, d.port, answer, proto);
        assert Addresses(d, answer)[0] == NoAddr;
      }
    }
  }

  /** The address a resolver's answer is dialled at. */
  function Preferred(a: Answer): IP {
    if a.ipv4 != [] then a.ipv4 else a.ipv6
  }

  /** For arbitrary destinations and answers: an outbound that dials itself is handed a public
      address exactly when the destination is a valid address, or a name for which the address
      preferred has a length that an address can have. */
  lemma DialledIsPublicExactlyWhenWellFormed(p: Policy, d: Dest, answer: Answer, proto: Protocol)
    requires p.blockPrivate && Ordinary(p, d, answer, proto)
    requires SelectRoute(p, d, answer, proto).Accepted? && !RemoteResolve(Consult(p, d, answer, proto).0)
    ensures var target := SelectRoute(p, d, answer, proto).target;
            && target.At?
            && (Public(p, target.addr) <==> if d.At? then d.addr != NoAddr else |Preferred(answer)| in {4, 16})
  {
    if d.At? {
      FilteredAddress(p, d, answer, proto);
      assert Addresses(d, answer)[0] == ToAddr(Bytes(d.addr));
      if d.addr == NoAddr {
        InvalidDestinationPasses(p, d.port, answer, proto);
      }
    } else {
      assert |Preferred(answer)| in {4, 16} <==> ToAddr(Preferred(answer)) != NoAddr;
    }
  }

  // ---------- where answers come from ----------

  /** The first address that has a four-byte form, in that form, and the first that has none. */
  function FirstV4(ips: seq<IP>): IP {
    if ips == [] then [] else if To4(ips[0]) != [] then To4(ips[0]) else FirstV4(ips[1..])
  }

  function FirstV6(ips: seq<IP>): IP {
    if ips == [] then [] else if To4(ips[0]) == [] && ips[0] != [] then ips[0] else FirstV6(ips[1..])
  }

  predicate OfFamily(ip: IP, four: bool) {
    ip != [] && (To4(ip) != []) == four
  }

  function FirstOf(ips: seq<IP>, four: bool): IP {
    if four then FirstV4(ips) else FirstV6(ips)
  }

  /** They are the ones of the least index of each family. */
  lemma {:induction false} FirstAt(ips: seq<IP>, i: nat, four: bool)
    requires i < |ips| && OfFamily(ips[i], four) && forall j :: 0 <= j < i ==> !OfFamily(ips[j], four)
    ensures FirstOf(ips, four) == if four then To4(ips[i]) else ips[i]
  {
    if i == 0 {
    } else {
      assert !OfFamily(ips[0], four);
      FirstAt(ips[1..], i - 1, four);
    }
  }

  lemma {:induction false} FirstNone(ips: seq<IP>, four: bool)
    requires forall i :: 0 <= i < |ips| ==> !OfFamily(ips[i], four)
    ensures FirstOf(ips, four) == []
  {
    if ips == [] {
    } else {
      assert !OfFamily(ips[0], four);
      FirstNone(ips[1..], four);
    }
  }

  /** The system's answer: the first address of each family. It is valid whatever the library
      returns, as long as those are addresses. */
  method SystemResolve(ips: seq<IP>) returns (a: Answer)
    ensures a == Answer(FirstV4(ips), FirstV6(ips))
    ensures (forall i :: 0 <= i < |ips| ==> |ips[i]| in {4, 16}) ==> ValidAnswer(a)
  {
    a := Answer([], []);
    for i := 0 to |ips|
      invariant FirstV4(ips) == if a.ipv4 != [] then a.ipv4 else FirstV4(ips[i..])
      invariant FirstV6(ips) == if a.ipv6 != [] then a.ipv6 else FirstV6(ips[i..])
      invariant (forall j :: 0 <= j < |ips| ==> |ips[j]| in {4, 16}) ==> ValidAnswer(a)
    {
      assert ips[i..][1..] == ips[i + 1..];
      if To4(ips[i]) != [] {
        if a.ipv4 == [] { a := a.(ipv4 := To4(ips[i])); }
      } else if a.ipv6 == [] {
        a := a.(ipv6 := ips[i]);
      }
    }
  }

  datatype Record = RecordA(ip: IP) | RecordAaaa(ip: IP) | Cname | OtherRecord
  datatype Query = QueryA | QueryAaaa

  function To16(ip: IP): IP {
    if |ip| == 16 then ip else if |ip| == 4 then MAPPED + ip else []
  }

  predicate Answers(r: Record, q: Query) {
    (r.RecordA? && q == QueryA) || (r.RecordAaaa? && q == QueryAaaa)
  }

  /** The first record of the kind asked for. */
  predicate IsFirst(answers: seq<Record>, q: Query, i: int) {
    0 <= i < |answers| && Answers(answers[i], q) && forall j :: 0 <= j < i ==> !Answers(answers[j], q)
  }

  /** An address in the form of the family asked for, or nil. */
  function Formed(ip: IP, q: Query): IP {
    if q == QueryA then To4(ip) else To16(ip)
  }

  /** The answer of a custom resolver to one query: the first record of the kind asked for, in
      the form of its family, whatever length the record has. */
  method FirstAddress(answers: seq<Record>, q: Query) returns (ip: IP, hasCname: bool)
    ensures |ip| in {0, if q == QueryA then 4 else 16}
    ensures forall i :: IsFirst(answers, q, i) ==> !hasCname && ip == Formed(answers[i].ip, q)
    ensures (forall i :: !IsFirst(answers, q, i)) ==> ip == [] && (hasCname <==> Cname in answers)
  {
    hasCname := false;
    for i := 0 to |answers|
      invariant forall j :: 0 <= j < i ==> !Answers(answers[j], q)
      invariant hasCname <==> Cname in answers[..i]
    {
      assert answers[..i + 1] == answers[..i] + [answers[i]];
      match answers[i]
      case RecordA(a) =>
        if q == QueryA {
          assert IsFirst(answers, q, i);
          return To4(a), false;
        }
      case RecordAaaa(a) =>
        if q == QueryAaaa {
          assert IsFirst(answers, q, i);
          return To16(a), false;
        }
      case Cname => hasCname := true;
      case OtherRecord =>
    }
    assert answers[..|answers|] == answers;
    return [], hasCname;
  }

  /** So the answers of both are valid, which the filter relies on: an answer of any other
      length would not be recognised as private and would be passed on. */
  lemma MalformedAnswerPasses(p: Policy, fqdn: string, proto: Protocol)
    requires p.blockPrivate && p.acl.None? && !RemoteResolve(p.fallback)
    ensures SelectRoute(p, Name(fqdn, 80), Answer([1, 2, 3, 4, 5], []), proto) == Accepted(p.fallback, At(NoAddr, 80))
  {
  }

  // ---------- the text of a destination ----------

  function HostText(d: Dest): string {
    if d.Name? then d.fqdn else ToText(Bytes(d.addr))
  }

  function Bracketed(host: string): string {
    if ':' in host then "[" + host + "]" else host
  }

  /** `Socksaddr.String`, which joins host and port as `net.JoinHostPort` does. */
  function DestText(d: Dest): string {
    Bracketed(HostText(d)) + [':'] + Number(d.port, 10)
  }

  /** A destination as it comes off the wire: valid, and no IPv4 address in IPv6 form. */
  predicate ProperDest(d: Dest) {
    d.At? ==> d.addr != NoAddr && Norm(d.addr.bytes) == d.addr.bytes
  }

  /** A name that spells an address. */
  predicate Spells(name: Dest, at: Dest) {
    name.Name? && at.At? && name.port == at.port && name.fqdn == ToText(Bytes(at.addr))
  }

  lemma BracketedDetermines(a: string, b: string)
    requires Bracketed(a) == Bracketed(b)
    ensures a == b
  {
    if ':' in a && ':' in b {
      assert Bracketed(a)[1..|a| + 1] == a && Bracketed(b)[1..|b| + 1] == b;
    } else if ':' in a {
      HasColon(a);
      assert false;
    } else if ':' in b {
      HasColon(b);
      assert false;
    }
  }

  lemma HasColon(a: string)
    requires ':' in a
    ensures ':' in Bracketed(a)
  {
    var i :| 0 <= i < |a| && a[i] == ':';
    assert Bracketed(a)[i + 1] == ':';
  }

  lemma TextDetermines(d: Dest, d': Dest)
    requires DestText(d) == DestText(d')
    ensures HostText(d) == HostText(d') && d.port == d'.port
  {
    NumberReads(d.port, 10);
    NumberReads(d'.port, 10);
    AfterLast(Bracketed(HostText(d)), Number(d.port, 10), Bracketed(HostText(d')), Number(d'.port, 10), ':');
    BracketedDetermines(HostText(d), HostText(d'));
  }

  /** Two destinations have the same text exactly when they are the same or one is a name that
      spells the other's address. */
  lemma SameTextExactlyWhenSpelled(d: Dest, d': Dest)
    requires ProperDest(d) && ProperDest(d')
    ensures DestText(d) == DestText(d') <==> d == d' || Spells(d, d') || Spells(d', d)
  {
    if DestText(d) == DestText(d') {
      TextDetermines(d, d');
      if d.At? && d'.At? {
        SameTextSameAddress(d.addr.bytes, d'.addr.bytes);
        EqualIsSameNorm(d.addr.bytes, d'.addr.bytes);
      }
    }
  }

  // ---------- names that spell addresses ----------

  /** What `net.ParseIP` makes of a text that is not the text of an address. */
  type Parser = string -> IP

  function ReadIP(host: string): IP {
    var ip := FromText(host);
    if |ip| in {4, 16} && forall i :: 0 <= i < |ip| ==> 0 <= ip[i] < 0x100
    then seq(|ip|, i requires 0 <= i < |ip| => ip[i]) else []
  }

  /** `net.ParseIP`: it reads the text of an address, up to form; of other texts it makes some
      address, or none, which is nil. */
  function ParseIP(parse: Parser, host: string): (ip: IP)
    ensures |ip| in {0, 4, 16}
  {
    var ip := ReadIP(host);
    if ip != [] && ToText(ip) == host then ip
    else if |parse(host)| in {4, 16} then parse(host)
    else []
  }

  lemma ParseReads(parse: Parser, ip: IP)
    requires |ip| in {4, 16}
    ensures ParseIP(parse, ToText(ip)) == Norm(ip)
  {
    TextBack(ip);
    assert ReadIP(ToText(ip)) == Norm(ip);
    SameTextOfNorm(ip);
  }

  lemma SameTextOfNorm(ip: IP)
    ensures ToText(Norm(ip)) == ToText(ip)
  {
  }

  /** `tryParseIP`: a literal is its own answer. */
  function TryParseIP(parse: Parser, host: string): Option<Answer> {
    var ip := ParseIP(parse, host);
    if ip == [] then None
    else if To4(ip) != [] then Some(Answer(To4(ip), []))
    else Some(Answer([], ip))
  }

  /** What a resolver answers for a name: the name itself if it is a literal, and otherwise
      what was `found`. For an address it is not asked. */
  function Resolve(parse: Parser, d: Dest, found: Answer): Answer {
    if d.Name? && TryParseIP(parse, d.fqdn).Some? then TryParseIP(parse, d.fqdn).value else found
  }

  /** Any other name is looked up. */
  lemma NamesAreLookedUp(parse: Parser, name: Dest, found: Answer)
    requires name.Name? && ParseIP(parse, name.fqdn) == []
    ensures Resolve(parse, name, found) == found
  {
  }

  /** The answer for a name that spells an address is that address. */
  lemma LiteralAnswersItself(parse: Parser, name: Dest, at: Dest, found: Answer)
    requires ProperDest(at) && Spells(name, at)
    ensures Resolve(parse, name, found) == Literal(at.addr)
  {
    ParseReads(parse, at.addr.bytes);
  }

  /** Decisions on a name that spells an address and on that address. */
  predicate SameRoute(name: Dest, at: Dest, r: Decision, r': Decision) {
    if r.Accepted? && r'.Accepted?
    then r.outbound == r'.outbound && (r.target == r'.target || (r.target == name && r'.target == at))
    else r == r'
  }

  lemma SpelledConsults(p: Policy, name: Dest, at: Dest, answer: Answer, proto: Protocol)
    requires Spells(name, at) && (p.acl.Some? || p.customResolver || p.blockPrivate)
    ensures Consult(p, name, Literal(at.addr), proto) == Consult(p, at, answer, proto)
    ensures HostInfoOf(p, name, Literal(at.addr)) == HostInfoOf(p, at, answer).(attempted := true)
  {
  }

  lemma SpelledPicks(name: Dest, at: Dest)
    requires ProperDest(at) && Spells(name, at)
    ensures PickDialAddr(name, Literal(at.addr), true) == PickDialAddr(at, Literal(at.addr), false) == Some(at)
  {
  }

  lemma LiteralRoutesAgree(p: Policy, name: Dest, at: Dest, answer: Answer, proto: Protocol)
    requires ProperDest(at) && Spells(name, at)
    ensures SameRoute(name, at, SelectRoute(p, name, Literal(at.addr), proto), SelectRoute(p, at, answer, proto))
  {
    SpelledPicks(name, at);
    if p.acl.Some? || p.customResolver || p.blockPrivate {
      SpelledConsults(p, name, at, answer, proto);
    }
  }

  /** The policy treats a name that spells an address as that address: both are refused for the
      same reason, or both go through the same outbound to the same target, except that the
      outbound may be handed the destination in the form it came in. */
  lemma SpelledRoutesAgree(p: Policy, parse: Parser, name: Dest, at: Dest, found: Answer, found': Answer,
                           proto: Protocol)
    requires ProperDest(at) && Spells(name, at)
    ensures var r := SelectRoute(p, name, Resolve(parse, name, found), proto);
            SameRoute(name, at, r, SelectRoute(p, at, found', proto))
  {
    LiteralAnswersItself(parse, name, at, found);
    LiteralRoutesAgree(p, name, at, found', proto);
  }

  /** The target of a decision for one destination as the target for another of the same text. */
  lemma SpelledTargets(name: Dest, at: Dest)
    requires Spells(name, at)
    ensures DestText(name) == DestText(at)
  {
  }

  /** Two destinations of one text get the same outbound and targets of one text, unless they
      are the same destination, resolved at different times. */
  lemma SameTextSameRoute(p: Policy, parse: Parser, d: Dest, d': Dest, found: Answer, found': Answer, proto: Protocol)
    requires ProperDest(d) && ProperDest(d') && DestText(d) == DestText(d') && d != d'
    ensures var r := SelectRoute(p, d, Resolve(parse, d, found), proto);
            var r' := SelectRoute(p, d', Resolve(parse, d', found'), proto);
            if r.Accepted? && r'.Accepted?
            then r.outbound == r'.outbound && DestText(r.target) == DestText(r'.target)
            else r == r'
  {
    SameTextExactlyWhenSpelled(d, d');
    if Spells(d, d') {
      SpelledRoutesAgree(p, parse, d, d', found, found', proto);
      SpelledTargets(d, d');
    } else {
      SpelledRoutesAgree(p, parse, d', d, found', found, proto);
      SpelledTargets(d', d);
    }
  }
}
