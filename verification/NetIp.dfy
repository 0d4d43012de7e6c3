/** `net.IP`: byte slices, the equality that identifies an IPv4 address with its IPv6-mapped
    form, and the text form. The nil address is the empty sequence. */
module NetIp {
  import opened Text
  import opened Frames
  import opened Numerals

  type IP = seq<byte>

  const MAPPED: seq<byte> := [0, 0, 0, 0, 0, 0, 0, 0, 0, 0, 255, 255]

  /** The four-byte form, or nil. */
  function To4(ip: IP): IP {
    if |ip| == 4 then ip
    else if |ip| == 16 && ip[..12] == MAPPED then ip[12..]
    else []
  }

  /** One representative of the addresses that `Equal` identifies. */
  function Norm(ip: IP): IP {
    if To4(ip) != [] then To4(ip) else ip
  }

  predicate Equal(a: IP, b: IP) {
    if |a| == |b| then a == b
    else if |a| == 4 && |b| == 16 then b[..12] == MAPPED && a == b[12..]
    else if |a| == 16 && |b| == 4 then a[..12] == MAPPED && a[12..] == b
    else false
  }

  lemma EqualIsSameNorm(a: IP, b: IP)
    ensures Equal(a, b) <==> Norm(a) == Norm(b)
  {
    if |a| == |b| == 16 && a[..12] == MAPPED && b[..12] == MAPPED {
      assert a == a[..12] + a[12..] && b == b[..12] + b[12..];
    }
  }

  // ---------- the text of an IPv6 address ----------

  type Group = g: int | 0 <= g < 0x1_0000

  function Groups(ip: seq<byte>): seq<Group>
    requires |ip| == 16
  {
    seq(8, i requires 0 <= i < 8 => (ip[2 * i] as int) * 0x100 + ip[2 * i + 1])
  }

  function UnGroups(gs: seq<int>): seq<int> {
    seq(2 * |gs|, i requires 0 <= i < 2 * |gs| => if i % 2 == 0 then gs[i / 2] / 0x100 else gs[i / 2] % 0x100)
  }

  lemma GroupsBack(ip: seq<byte>)
    requires |ip| == 16
    ensures UnGroups(Groups(ip)) == ip
  {
    forall i | 0 <= i < 16 ensures UnGroups(Groups(ip))[i] == ip[i] {
      var k := i / 2;
      assert i == 2 * k || i == 2 * k + 1;
    }
  }

  /** Where the run of zero groups that starts at `i` ends. */
  function RunEnd(gs: seq<Group>, i: nat): (j: nat)
    requires i <= |gs|
    ensures i <= j <= |gs| && forall k :: i <= k < j ==> gs[k] == 0
    decreases |gs| - i
  {
    if i < |gs| && gs[i] == 0 then RunEnd(gs, i + 1) else i
  }

  /** The first longest run of at least two zero groups, searched from `i` on. */
  function LongestRun(gs: seq<Group>, i: nat, from: nat, to: nat): (r: (nat, nat))
    requires i <= |gs| && from <= to <= |gs| && forall k :: from <= k < to ==> gs[k] == 0
    ensures r.0 <= r.1 <= |gs| && forall k :: r.0 <= k < r.1 ==> gs[k] == 0
    decreases |gs| - i
  {
    if i == |gs| then (from, to)
    else
      var j := RunEnd(gs, i);
      if j - i >= 2 && j - i > to - from then LongestRun(gs, i + 1, i, j) else LongestRun(gs, i + 1, from, to)
  }

  /** The text between colons; an empty field next to the elided run and at an end it touches. */
  function Fields(gs: seq<Group>, from: nat, to: nat): seq<string>
    requires from <= to <= |gs|
  {
    if from == to then Numbers(gs, 16)
    else
      (if from == 0 then [[]] else Numbers(gs[..from], 16)) + [[]]
      + (if to == |gs| then [[]] else Numbers(gs[to..], 16))
  }

  function Text6(ip: seq<byte>): string
    requires |ip| == 16
  {
    var gs := Groups(ip);
    var (from, to) := LongestRun(gs, 0, 0, 0);
    Join(Fields(gs, from, to), ':')
  }

  function Lead(fields: seq<string>): seq<string> {
    if fields == [] || fields[0] == [] then [] else [fields[0]] + Lead(fields[1..])
  }

  function Trail(fields: seq<string>): seq<string> {
    if fields == [] || fields[|fields| - 1] == [] then []
    else Trail(fields[..|fields| - 1]) + [fields[|fields| - 1]]
  }

  predicate NonEmpty(fields: seq<string>) {
    forall i :: 0 <= i < |fields| ==> fields[i] != []
  }

  lemma {:induction false} LeadIs(a: seq<string>, b: seq<string>)
    requires NonEmpty(a) && (b == [] || b[0] == [])
    ensures Lead(a + b) == a
  {
    if a == [] {
      assert a + b == b;
    } else {
      assert (a + b)[1..] == a[1..] + b;
      LeadIs(a[1..], b);
    }
  }

  lemma {:induction false} TrailIs(a: seq<string>, b: seq<string>)
    requires NonEmpty(b) && a != [] && a[|a| - 1] == []
    ensures Trail(a + b) == b
    decreases |b|
  {
    if b == [] {
      assert a + b == a;
    } else {
      assert (a + b)[..|a + b| - 1] == a + b[..|b| - 1];
      TrailIs(a, b[..|b| - 1]);
    }
  }

  function UnFields(fields: seq<string>): seq<int> {
    var lead, trail := Reads(Lead(fields), 16), Reads(Trail(fields), 16);
    if |lead| == |fields| || |lead| + |trail| > 8 then lead
    else lead + seq(8 - |lead| - |trail|, i => 0) + trail
  }

  lemma FieldsBack(gs: seq<Group>, from: nat, to: nat)
    requires |gs| == 8 && from <= to <= 8 && forall k :: from <= k < to ==> gs[k] == 0
    ensures UnFields(Fields(gs, from, to)) == gs
  {
    NumbersRead(gs, 16);
    if from == to {
      LeadIs(Numbers(gs, 16), []);
      assert Numbers(gs, 16) + [] == Numbers(gs, 16);
    } else {
      ElidedBack(gs, from, to);
    }
  }

  function Empties(from: nat, to: nat): seq<string> {
    (if from == 0 then [[]] else []) + [[]] + (if to == 8 then [[]] else [])
  }

  lemma FieldsParts(gs: seq<Group>, from: nat, to: nat)
    requires |gs| == 8 && from < to <= 8
    ensures Fields(gs, from, to) == Numbers(gs[..from], 16) + (Empties(from, to) + Numbers(gs[to..], 16))
  {
  }

  lemma UnFieldsParts(left: seq<string>, mid: seq<string>, right: seq<string>)
    requires NonEmpty(left) && NonEmpty(right) && |left| + |right| <= 8
    requires mid != [] && mid[0] == [] && mid[|mid| - 1] == []
    ensures UnFields(left + (mid + right)) == Reads(left, 16) + seq(8 - |left| - |right|, i => 0) + Reads(right, 16)
  {
    LeadIs(left, mid + right);
    TrailIs(left + mid, right);
    assert left + (mid + right) == (left + mid) + right;
  }

  lemma NumbersBack(ns: seq<nat>)
    ensures Reads(Numbers(ns, 16), 16) == ns && NonEmpty(Numbers(ns, 16)) && |Numbers(ns, 16)| == |ns|
  {
    NumbersRead(ns, 16);
  }

  lemma ZeroRun(gs: seq<Group>, from: nat, to: nat)
    requires from < to <= |gs| && forall k :: from <= k < to ==> gs[k] == 0
    ensures gs == gs[..from] + seq(to - from, i => 0) + gs[to..]
  {
  }

  lemma ElidedBack(gs: seq<Group>, from: nat, to: nat)
    requires |gs| == 8 && from < to <= 8 && forall k :: from <= k < to ==> gs[k] == 0
    ensures UnFields(Fields(gs, from, to)) == gs
  {
    NumbersBack(gs[..from]);
    NumbersBack(gs[to..]);
    FieldsParts(gs, from, to);
    UnFieldsParts(Numbers(gs[..from], 16), Empties(from, to), Numbers(gs[to..], 16));
    ZeroRun(gs, from, to);
  }

  // ---------- all addresses ----------

  function Text4(ip: seq<byte>): string {
    Join(Numbers(ip, 10), '.')
  }

  function HexText(ip: seq<byte>): string {
    seq(2 * |ip|, i requires 0 <= i < 2 * |ip| => Symbol(if i % 2 == 0 then ip[i / 2] / 16 else ip[i / 2] % 16))
  }

  function UnHex(s: string): seq<int> {
    seq(|s| / 2, i requires 0 <= i < |s| / 2 => Digit(s[2 * i]) * 16 + Digit(s[2 * i + 1]))
  }

  /** `IP.String`. */
  function ToText(ip: IP): string {
    if ip == [] then "<nil>"
    else if To4(ip) != [] then Text4(To4(ip))
    else if |ip| == 16 then Text6(ip)
    else "?" + HexText(ip)
  }

  /** Reads a text back, up to `Equal`. */
  function FromText(s: string): seq<int> {
    if s == [] || s[0] == '<' then []
    else if s[0] == '?' then UnHex(s[1..])
    else if ':' in s then UnGroups(UnFields(Split(s, ':')))
    else Reads(Split(s, '.'), 10)
  }

  lemma HexAt(ip: seq<byte>, i: nat)
    requires i < |ip|
    ensures HexText(ip)[2 * i] == Symbol(ip[i] / 16) && HexText(ip)[2 * i + 1] == Symbol(ip[i] % 16)
  {
    assert 2 * i / 2 == i && (2 * i + 1) / 2 == i;
  }

  lemma HexReads(ip: seq<byte>, i: nat)
    requires i < |ip|
    ensures UnHex(HexText(ip))[i] == ip[i]
  {
    HexAt(ip, i);
    SymbolDigit(ip[i] / 16);
    SymbolDigit(ip[i] % 16);
  }

  lemma HexPlain(ip: seq<byte>, i: nat)
    requires i < 2 * |ip|
    ensures HexText(ip)[i] !in {'|', '.', ':', '?', '<', 'n'}
  {
    SymbolDigit(if i % 2 == 0 then ip[i / 2] / 16 else ip[i / 2] % 16);
  }

  lemma HexBack(ip: seq<byte>)
    ensures UnHex(HexText(ip)) == ip && Plain(HexText(ip))
  {
    forall i | 0 <= i < 2 * |ip| ensures HexText(ip)[i] !in {'|', '.', ':', '?', '<', 'n'} {
      HexPlain(ip, i);
    }
    forall i | 0 <= i < |ip| ensures UnHex(HexText(ip))[i] == ip[i] {
      HexReads(ip, i);
    }
  }

  /** The characters of a joined text are those of its parts and the separator. */
  lemma {:induction false} JoinChars(parts: seq<string>, c: char, x: char)
    requires x in Join(parts, c)
    ensures x == c || exists i :: 0 <= i < |parts| && x in parts[i]
  {
    if |parts| > 1 && x !in parts[0] && x != c {
      JoinChars(parts[1..], c, x);
      var i :| 0 <= i < |parts[1..]| && x in parts[1..][i];
      assert x in parts[i + 1];
    } else if parts != [] && x in parts[0] {
    }
  }

  predicate AllPlain(parts: seq<string>) {
    forall i :: 0 <= i < |parts| ==> Plain(parts[i])
  }

  lemma PlainJoin(parts: seq<string>, c: char)
    requires AllPlain(parts) && c in {'.', ':'}
    ensures Free(parts, c)
    ensures forall x :: x in Join(parts, c) ==> x == c || x !in {'|', '.', ':', '?', '<', 'n'}
  {
    forall x | x in Join(parts, c) && x != c ensures x !in {'|', '.', ':', '?', '<', 'n'} {
      JoinChars(parts, c, x);
    }
  }

  lemma Text4Back(ip: seq<byte>)
    requires |ip| == 4
    ensures FromText(Text4(ip)) == ip && '|' !in Text4(ip)
  {
    var parts := Numbers(ip, 10);
    NumbersRead(ip, 10);
    PlainJoin(parts, '.');
    SplitJoin(parts, '.');
    assert Text4(ip)[0] == parts[0][0];
    assert parts[0][0] in parts[0];
  }

  lemma FieldsPlain(gs: seq<Group>, from: nat, to: nat)
    requires |gs| == 8 && from <= to <= 8
    ensures AllPlain(Fields(gs, from, to)) && |Fields(gs, from, to)| >= 2
  {
    NumbersRead(gs, 16);
    NumbersRead(gs[..from], 16);
    NumbersRead(gs[to..], 16);
  }

  /** A text of plain fields joined by colons is told apart from every other text. */
  lemma ColonText(fields: seq<string>)
    requires AllPlain(fields) && |fields| >= 2
    ensures var t := Join(fields, ':');
            ':' in t && '|' !in t && t[0] !in {'<', '?'} && Split(t, ':') == fields
  {
    PlainJoin(fields, ':');
    SplitJoin(fields, ':');
    var t := Join(fields, ':');
    assert t == fields[0] + [':'] + Join(fields[1..], ':');
    assert t[|fields[0]|] == ':';
    assert t[0] in t;
  }

  lemma Text6Back(ip: seq<byte>)
    requires |ip| == 16
    ensures FromText(Text6(ip)) == ip && '|' !in Text6(ip)
  {
    var gs := Groups(ip);
    var (from, to) := LongestRun(gs, 0, 0, 0);
    FieldsPlain(gs, from, to);
    ColonText(Fields(gs, from, to));
    FieldsBack(gs, from, to);
    GroupsBack(ip);
  }

  /** The text determines the address up to `Equal`, and never contains a bar. */
  lemma TextBack(ip: IP)
    ensures FromText(ToText(ip)) == Norm(ip) && '|' !in ToText(ip)
  {
    if ip == [] {
    } else if To4(ip) != [] {
      Text4Back(To4(ip));
    } else if |ip| == 16 {
      Text6Back(ip);
    } else {
      HexBack(ip);
      var t := "?" + HexText(ip);
      assert t[1..] == HexText(ip);
      forall i | 0 <= i < |t| ensures t[i] != '|' {
        assert i > 0 ==> t[i] == HexText(ip)[i - 1];
      }
    }
  }

  lemma SameTextSameAddress(a: IP, b: IP)
    requires ToText(a) == ToText(b)
    ensures Equal(a, b)
  {
    TextBack(a);
    TextBack(b);
    EqualIsSameNorm(a, b);
  }
}
