/** GeoIP matching: a binary search over networks sorted by their stored addresses. */
module GeoIp {
  import opened Frames
  import opened NetIp
  import Sorting

  /** A network as it is loaded: an address (any member of the network) and a prefix length. */
  datatype Cidr = Cidr(ip: IP, prefix: int)

  // ---------- addresses as numbers ----------

  /** A slice as a big-endian number. */
  function Value(a: seq<byte>): nat {
    if a == [] then 0 else Value(a[..|a| - 1]) * 256 + a[|a| - 1]
  }

  /** `bytes.Compare(a, b) < 0`. */
  predicate Less(a: seq<byte>, b: seq<byte>) {
    if a == [] || b == [] then a == [] && b != []
    else a[0] < b[0] || (a[0] == b[0] && Less(a[1..], b[1..]))
  }

  lemma {:induction false} LessByFront(a: seq<byte>, x: byte, b: seq<byte>, y: byte)
    requires |a| == |b|
    ensures Less(a + [x], b + [y]) <==> Less(a, b) || (a == b && x < y)
  {
    if a == [] {
      assert a + [x] == [x] && b + [y] == [y];
    } else {
      assert (a + [x])[1..] == a[1..] + [x] && (b + [y])[1..] == b[1..] + [y];
      LessByFront(a[1..], x, b[1..], y);
    }
  }

  /** Slices of one length are ordered as numbers are, and equal exactly when those are. */
  lemma {:induction false} LessIsSmaller(a: seq<byte>, b: seq<byte>)
    requires |a| == |b|
    ensures Less(a, b) <==> Value(a) < Value(b)
    ensures a == b <==> Value(a) == Value(b)
  {
    if a == [] {
    } else {
      var n := |a| - 1;
      LessIsSmaller(a[..n], b[..n]);
      LessByFront(a[..n], a[n], b[..n], b[n]);
      assert a == a[..n] + [a[n]] && b == b[..n] + [b[n]];
    }
  }

  // ---------- membership ----------

  /** The prefix length that applies to the address bytes actually compared: an IPv4-mapped
      network address is cut to its four bytes, and the mask with it. */
  function NetBytes(n: Cidr): IP {
    Norm(n.ip)
  }

  function NetPrefix(n: Cidr): int {
    if |n.ip| == 16 && |NetBytes(n)| == 4 then if n.prefix > 96 then n.prefix - 96 else 0 else n.prefix
  }

  /** `net.CIDRMask` yields no mask for a prefix length out of range. */
  predicate ValidPrefix(n: Cidr) {
    0 <= n.prefix <= 8 * |n.ip|
  }

  /** `IPNet.Contains`: same length, and the same bits under the mask. */
  predicate Contains(n: Cidr, ip: IP) {
    var x, a := Norm(ip), NetBytes(n);
    && ValidPrefix(n) && |a| in {4, 16} && |x| == |a|
    && SameBits(Value(x), Value(a), 8 * |a| - NetPrefix(n))
  }

  /** The same number but for the last `hostBits` bits. */
  predicate SameBits(x: nat, y: nat, hostBits: int) {
    hostBits >= 0 && (if hostBits == 0 then x == y else SameBits(x / 2, y / 2, hostBits - 1))
  }

  lemma {:induction false} SameBitsSelf(x: nat, hostBits: nat)
    ensures SameBits(x, x, hostBits)
  {
    if hostBits == 0 {
    } else {
      SameBitsSelf(x / 2, hostBits - 1);
    }
  }

  /** Between two members of a network there are only members. */
  lemma {:induction false} SameBitsConvex(x: nat, y: nat, a: nat, hostBits: int)
    requires SameBits(x, a, hostBits) && (x <= y <= a || a <= y <= x)
    ensures SameBits(y, a, hostBits)
    decreases hostBits
  {
    if hostBits == 0 {
    } else {
      SameBitsConvex(x / 2, y / 2, a / 2, hostBits - 1);
    }
  }

  // ---------- the search ----------

  predicate OneWidth(n: seq<Cidr>, width: nat) {
    forall i :: 0 <= i < |n| ==> |n[i].ip| == width
  }

  /** Networks of one family, sorted by stored address. */
  ghost predicate SortedNets(n: seq<Cidr>, width: nat) {
    OneWidth(n, width) && Sorting.Sorted(n, Key)
  }

  function Key(c: Cidr): nat {
    Value(c.ip)
  }

  /** The search, given which networks contain the address and which are stored before it. */
  function Search(hits: seq<bool>, less: seq<bool>, left: int, right: int): bool
    requires |hits| == |less| && 0 <= left && right < |hits|
    decreases right - left + 1
  {
    if left > right then false
    else
      var mid := (left + right) / 2;
      if hits[mid] then true
      else if less[mid] then Search(hits, less, mid + 1, right)
      else Search(hits, less, left, mid - 1)
  }

  function Hits(n: seq<Cidr>, ip: IP): seq<bool> {
    seq(|n|, i requires 0 <= i < |n| => Contains(n[i], ip))
  }

  function Smaller(n: seq<Cidr>, ip: IP): seq<bool> {
    seq(|n|, i requires 0 <= i < |n| => Less(n[i].ip, ip))
  }

  /** The search on a list of networks. */
  function SearchIn(n: seq<Cidr>, ip: IP): bool {
    Search(Hits(n, ip), Smaller(n, ip), 0, |n| - 1)
  }

  lemma SearchStep(hits: seq<bool>, less: seq<bool>, left: int, right: int, mid: int)
    requires |hits| == |less| && 0 <= left <= right < |hits| && mid == (left + right) / 2
    ensures Search(hits, less, left, right) ==
            (hits[mid] || if less[mid] then Search(hits, less, mid + 1, right) else Search(hits, less, left, mid - 1))
  {
  }

  lemma TablesAt(n: seq<Cidr>, ip: IP, i: nat)
    requires i < |n|
    ensures Hits(n, ip)[i] == Contains(n[i], ip) && Smaller(n, ip)[i] == Less(n[i].ip, ip)
  {
  }

  ghost predicate Tables(n: seq<Cidr>, ip: IP, hits: seq<bool>, less: seq<bool>) {
    && |hits| == |less| == |n|
    && forall i {:trigger n[i]} :: 0 <= i < |n| ==>
         hits[i] == Contains(n[i], ip) && less[i] == Less(n[i].ip, ip)
  }

  /** The loop of `matchIP` on one list. */
  method MatchIn(n: seq<Cidr>, ip: IP) returns (r: bool)
    ensures r == SearchIn(n, ip)
  {
    forall i | 0 <= i < |n| ensures Hits(n, ip)[i] == Contains(n[i], ip) && Smaller(n, ip)[i] == Less(n[i].ip, ip) {
      TablesAt(n, ip, i);
    }
    r := Find(n, ip, Hits(n, ip), Smaller(n, ip));
  }

  method Find(n: seq<Cidr>, ip: IP, ghost hits: seq<bool>, ghost less: seq<bool>) returns (r: bool)
    requires Tables(n, ip, hits, less)
    ensures r == Search(hits, less, 0, |n| - 1)
  {
    var left, right := 0, |n| - 1;
    while left <= right
      invariant 0 <= left && right < |n|
      invariant Search(hits, less, left, right) == Search(hits, less, 0, |n| - 1)
      decreases right - left + 1
    {
      var mid := (left + right) / 2;
      SearchStep(hits, less, left, right, mid);
      var hit, smaller := Contains(n[mid], ip), Less(n[mid].ip, ip);
      if hit {
        return true;
      } else if smaller {
        left := mid + 1;
      } else {
        right := mid - 1;
      }
    }
    return false;
  }

  /** Sound for any list: a hit is a network that contains the address. */
  lemma {:induction false} SearchIsSound(hits: seq<bool>, less: seq<bool>, left: int, right: int)
    requires |hits| == |less| && 0 <= left && right < |hits| && Search(hits, less, left, right)
    ensures true in hits
    decreases right - left + 1
  {
    var mid := (left + right) / 2;
    if hits[mid] {
      assert hits[mid] in hits;
    } else if less[mid] {
      SearchIsSound(hits, less, mid + 1, right);
    } else {
      SearchIsSound(hits, less, left, mid - 1);
    }
  }

  /** A hit at `j` that cannot be missed: so is everything from there to the place where the
      searched address would be stored. */
  ghost predicate Findable(hits: seq<bool>, less: seq<bool>, j: nat)
    requires |hits| == |less|
  {
    && j < |hits| && hits[j]
    && (forall i :: j <= i < |hits| && less[i] ==> hits[i])
    && (forall i :: 0 <= i <= j && !less[i] ==> hits[i])
  }

  lemma {:induction false} SearchFinds(hits: seq<bool>, less: seq<bool>, left: int, right: int, j: nat)
    requires |hits| == |less| && (forall i, k :: 0 <= i < k < |less| && less[k] ==> less[i])
    requires Findable(hits, less, j) && 0 <= left <= j <= right < |hits|
    ensures Search(hits, less, left, right)
    decreases right - left + 1
  {
    var mid := (left + right) / 2;
    if hits[mid] {
    } else if less[mid] {
      SearchFinds(hits, less, mid + 1, right, j);
    } else {
      SearchFinds(hits, less, left, mid - 1, j);
    }
  }

  predicate Between(y: nat, x: nat, a: nat) {
    x <= y <= a || a <= y <= x
  }

  /** The block of addresses a prefix stands for, as in section 3.1 of RFC 4632: those that
      agree with the stored address in the bits of the prefix. */
  predicate InBlock(c: Cidr, x: IP) {
    |x| == |c.ip| && SameBits(Value(x), Value(c.ip), 8 * |c.ip| - c.prefix)
  }

  /** What the database is supposed to be: valid prefix lengths, and no address in two
      blocks. */
  ghost predicate Disjoint(n: seq<Cidr>) {
    && (forall i :: 0 <= i < |n| ==> ValidPrefix(n[i]))
    && (forall i, j, x :: 0 <= i < |n| && 0 <= j < |n| && n[i] != n[j] && InBlock(n[i], x) ==> !InBlock(n[j], x))
  }

  lemma StoredIsMember(c: Cidr)
    requires ValidPrefix(c)
    ensures InBlock(c, c.ip)
  {
    SameBitsSelf(Value(c.ip), 8 * |c.ip| - c.prefix);
  }

  /** An address in its shortest form that a network of its width contains is in its block. */
  lemma ContainedIsMember(c: Cidr, x: IP)
    requires Norm(x) == x && |x| == |c.ip| && Contains(c, x)
    ensures InBlock(c, x)
  {
  }

  lemma BlockConvex(c: Cidr, x: IP, y: IP)
    requires InBlock(c, x) && |y| == |x| && Between(Value(y), Value(x), Value(c.ip))
    ensures InBlock(c, y)
  {
    SameBitsConvex(Value(x), Value(y), Value(c.ip), 8 * |c.ip| - c.prefix);
  }

  lemma DisjointIsFindable(n: seq<Cidr>, ip: IP, j: nat)
    requires Disjoint(n) && OneWidth(n, |ip|) && Norm(ip) == ip && j < |n| && Contains(n[j], ip)
    ensures forall i :: 0 <= i < |n| && Between(Key(n[i]), Value(ip), Key(n[j])) ==> Contains(n[i], ip)
  {
    ContainedIsMember(n[j], ip);
    forall i | 0 <= i < |n| && Between(Key(n[i]), Value(ip), Key(n[j])) ensures Contains(n[i], ip) {
      NoneBetween(n, ip, i, j);
    }
  }

  /** No other block is stored between a block's own address and one of its members. */
  lemma NoneBetween(n: seq<Cidr>, x: IP, i: nat, j: nat)
    requires Disjoint(n) && OneWidth(n, |x|) && i < |n| && j < |n| && InBlock(n[j], x)
    requires Between(Key(n[i]), Value(x), Key(n[j]))
    ensures n[i] == n[j]
  {
    StoredIsMember(n[i]);
    BlockConvex(n[j], x, n[i].ip);
  }

  ghost predicate SomeContains(n: seq<Cidr>, ip: IP) {
    exists i :: 0 <= i < |n| && Contains(n[i], ip)
  }

  lemma HitsAre(n: seq<Cidr>, ip: IP)
    ensures true in Hits(n, ip) <==> SomeContains(n, ip)
  {
    if SomeContains(n, ip) {
      var i :| 0 <= i < |n| && Contains(n[i], ip);
      assert Hits(n, ip)[i];
    }
  }

  /** A positive answer is right for any list whatsoever. */
  lemma MatchIsSound(n: seq<Cidr>, ip: IP)
    requires SearchIn(n, ip)
    ensures SomeContains(n, ip)
  {
    SearchIsSound(Hits(n, ip), Smaller(n, ip), 0, |n| - 1);
    HitsAre(n, ip);
  }

  /** On disjoint networks the binary search agrees with a scan of the whole list. */
  lemma SearchAgreesWithScan(n: seq<Cidr>, ip: IP)
    requires Disjoint(n) && SortedNets(n, |ip|) && Norm(ip) == ip
    ensures SearchIn(n, ip) <==> SomeContains(n, ip)
  {
    if SearchIn(n, ip) {
      MatchIsSound(n, ip);
    }
    if SomeContains(n, ip) {
      var j :| 0 <= j < |n| && Contains(n[j], ip);
      DisjointIsFindable(n, ip, j);
      FoundWhenAllBetweenContain(n, ip, j);
    }
  }

  /** On a sorted list the networks stored before an address come first. */
  lemma SmallerFirst(n: seq<Cidr>, ip: IP, i: nat, k: nat)
    requires SortedNets(n, |ip|) && i <= k < |n|
    ensures Less(n[k].ip, ip) <==> Key(n[k]) < Value(ip)
    ensures Less(n[k].ip, ip) ==> Less(n[i].ip, ip)
    ensures Key(n[i]) <= Key(n[k])
  {
    LessIsSmaller(n[i].ip, ip);
    LessIsSmaller(n[k].ip, ip);
    assert i < k ==> Key(n[i]) <= Key(n[k]);
  }

  lemma SmallerAscends(n: seq<Cidr>, ip: IP, less: seq<bool>)
    requires SortedNets(n, |ip|) && less == Smaller(n, ip)
    ensures forall i, k :: 0 <= i < k < |less| && less[k] ==> less[i]
  {
    forall i, k | 0 <= i < k < |less| && less[k] ensures less[i] {
      SmallerFirst(n, ip, i, k);
    }
  }

  lemma StoredBetween(n: seq<Cidr>, ip: IP, i: nat, j: nat)
    requires SortedNets(n, |ip|) && i < |n| && j < |n|
    requires if i < j then !Less(n[i].ip, ip) else i == j || Less(n[i].ip, ip)
    ensures Between(Key(n[i]), Value(ip), Key(n[j]))
  {
    if i < j {
      SmallerFirst(n, ip, i, i);
      SmallerFirst(n, ip, i, j);
    } else {
      SmallerFirst(n, ip, j, i);
    }
  }

  /** On any sorted list, overlapping or not: an address is found if some network contains it
      and so does every network stored between the address and that one's own. */
  lemma FoundWhenAllBetweenContain(n: seq<Cidr>, ip: IP, j: nat)
    requires SortedNets(n, |ip|) && j < |n| && Contains(n[j], ip)
    requires forall i :: 0 <= i < |n| && Between(Key(n[i]), Value(ip), Key(n[j])) ==> Contains(n[i], ip)
    ensures SearchIn(n, ip)
  {
    forall i | 0 <= i < |n| && Between(Key(n[i]), Value(ip), Key(n[j])) ensures Hits(n, ip)[i] {
      TablesAt(n, ip, i);
    }
    FoundGiven(n, ip, Hits(n, ip), Smaller(n, ip), j);
  }

  lemma FoundGiven(n: seq<Cidr>, ip: IP, hits: seq<bool>, less: seq<bool>, j: nat)
    requires SortedNets(n, |ip|) && j < |n| && |hits| == |n| && less == Smaller(n, ip) && hits[j]
    requires forall i :: 0 <= i < |n| && Between(Key(n[i]), Value(ip), Key(n[j])) ==> hits[i]
    ensures Search(hits, less, 0, |n| - 1)
  {
    SmallerAscends(n, ip, less);
    AllBetween(n, ip, hits, less, j);
    SearchFinds(hits, less, 0, |n| - 1, j);
  }

  lemma AllBetween(n: seq<Cidr>, ip: IP, hits: seq<bool>, less: seq<bool>, j: nat)
    requires SortedNets(n, |ip|) && j < |n| && |hits| == |less| == |n| && hits[j]
    requires forall i :: 0 <= i < |n| ==> less[i] == Less(n[i].ip, ip)
    requires forall i :: 0 <= i < |n| && Between(Key(n[i]), Value(ip), Key(n[j])) ==> hits[i]
    ensures Findable(hits, less, j)
  {
    forall i: nat | i < |n| && (if i < j then !less[i] else i == j || less[i]) ensures hits[i] {
      StoredBetween(n, ip, i, j);
    }
  }

  // ---------- exactly what is found on any sorted list ----------

  /** How many networks are stored before an address. */
  function Rank(less: seq<bool>): nat {
    if less == [] then 0 else Rank(less[..|less| - 1]) + if less[|less| - 1] then 1 else 0
  }

  lemma {:induction false} RankSplits(less: seq<bool>)
    requires forall i, k :: 0 <= i < k < |less| && less[k] ==> less[i]
    ensures Rank(less) <= |less| && forall i :: 0 <= i < |less| ==> (less[i] <==> i < Rank(less))
  {
    if less == [] {
    } else {
      RankSplits(less[..|less| - 1]);
    }
  }

  /** The positions looked at for an address that has `rank` networks stored before it: they
      depend on nothing else. */
  function Probed(left: int, right: int, rank: int): seq<int>
    decreases right - left + 1
  {
    if left > right || left < 0 then []
    else
      var mid := (left + right) / 2;
      [mid] + if mid < rank then Probed(mid + 1, right, rank) else Probed(left, mid - 1, rank)
  }

  ghost predicate HitAmong(hits: seq<bool>, at: seq<int>) {
    exists i :: 0 <= i < |at| && 0 <= at[i] < |hits| && hits[at[i]]
  }

  lemma HitAmongCons(hits: seq<bool>, first: int, at: seq<int>)
    requires 0 <= first < |hits|
    ensures HitAmong(hits, [first] + at) <==> hits[first] || HitAmong(hits, at)
  {
    if HitAmong(hits, [first] + at) && !hits[first] {
      var i :| 0 <= i < |[first] + at| && 0 <= ([first] + at)[i] < |hits| && hits[([first] + at)[i]];
      assert at[i - 1] == ([first] + at)[i];
    }
    if hits[first] {
      assert ([first] + at)[0] == first;
    }
    if i :| 0 <= i < |at| && 0 <= at[i] < |hits| && hits[at[i]] {
      assert ([first] + at)[i + 1] == at[i];
    }
  }

  lemma ProbedNext(left: int, right: int, rank: int, mid: int)
    requires 0 <= left <= right && mid == (left + right) / 2
    ensures Probed(left, right, rank) ==
            [mid] + if mid < rank then Probed(mid + 1, right, rank) else Probed(left, mid - 1, rank)
  {
  }

  lemma {:induction false} SearchIsProbing(hits: seq<bool>, less: seq<bool>, left: int, right: int, rank: int)
    requires |hits| == |less| && 0 <= left && right < |hits|
    requires forall i :: 0 <= i < |less| ==> (less[i] <==> i < rank)
    ensures Search(hits, less, left, right) <==> HitAmong(hits, Probed(left, right, rank))
    decreases right - left + 1
  {
    if left > right {
      assert Probed(left, right, rank) == [];
    } else {
      var mid := (left + right) / 2;
      SearchStep(hits, less, left, right, mid);
      ProbedNext(left, right, rank, mid);
      var l, r := if mid < rank then mid + 1 else left, if mid < rank then right else mid - 1;
      SearchIsProbing(hits, less, l, r, rank);
      HitAmongCons(hits, mid, Probed(l, r, rank));
    }
  }

  /** On any sorted list, overlapping or not, an address is found exactly when it is in a
      network at one of the positions looked at for its place in the order. */
  lemma FoundExactlyWhenProbed(n: seq<Cidr>, ip: IP)
    requires SortedNets(n, |ip|)
    ensures SearchIn(n, ip) <==> HitAmong(Hits(n, ip), Probed(0, |n| - 1, Rank(Smaller(n, ip))))
  {
    SmallerAscends(n, ip, Smaller(n, ip));
    FoundByRank(Hits(n, ip), Smaller(n, ip));
  }

  lemma FoundByRank(hits: seq<bool>, less: seq<bool>)
    requires |hits| == |less| && forall i, k :: 0 <= i < k < |less| && less[k] ==> less[i]
    ensures Search(hits, less, 0, |hits| - 1) <==> HitAmong(hits, Probed(0, |hits| - 1, Rank(less)))
  {
    RankSplits(less);
    SearchIsProbing(hits, less, 0, |hits| - 1, Rank(less));
  }

  /** Overlapping networks can hide an address: 10.0.0.6 is in 10.0.0.0/29, but the search
      passes 10.0.0.2/31 and 10.0.0.4/31 and gives up. */
  lemma OverlapHidesAddress()
    ensures var n := [Cidr([10, 0, 0, 0], 29), Cidr([10, 0, 0, 2], 31), Cidr([10, 0, 0, 4], 31)];
            var x := [10, 0, 0, 6];
            Contains(n[0], x) && SortedNets(n, 4) && !SearchIn(n, x)
  {
    var n := [Cidr([10, 0, 0, 0], 29), Cidr([10, 0, 0, 2], 31), Cidr([10, 0, 0, 4], 31)];
    LastByte(0);
    LastByte(2);
    LastByte(4);
    Catches();
    Misses(2);
    Misses(4);
    GivesUp(Hits(n, [10, 0, 0, 6]), Smaller(n, [10, 0, 0, 6]));
  }

  lemma Catches()
    ensures Contains(Cidr([10, 0, 0, 0], 29), [10, 0, 0, 6])
  {
    LastByte(0);
    LastByte(6);
    assert SameBits(0xa00_0006 / 4, 0xa00_0000 / 4, 1);
  }

  lemma GivesUp(hits: seq<bool>, less: seq<bool>)
    requires |hits| == |less| == 3 && !hits[1] && less[1] && !hits[2] && less[2]
    ensures !Search(hits, less, 0, 2)
  {
    assert Search(hits, less, 0, 2) == Search(hits, less, 2, 2) == Search(hits, less, 3, 2);
  }

  lemma Misses(b: byte)
    requires b in {2, 4}
    ensures !Contains(Cidr([10, 0, 0, b], 31), [10, 0, 0, 6]) && Less([10, 0, 0, b], [10, 0, 0, 6])
  {
    LastByte(b);
    LastByte(6);
    LessIsSmaller([10, 0, 0, b], [10, 0, 0, 6]);
    assert !SameBits(0xa00_0006 / 2, (0xa00_0000 + b) / 2, 0);
  }

  lemma LastByte(b: byte)
    ensures Value([10, 0, 0, b]) == 0xa00_0000 + b
  {
    assert [10, 0, 0, b][..3] == [10, 0, 0] && [10, 0, 0][..2] == [10, 0] && [10, 0][..1] == [10] && [10][..0] == [];
    assert Value([10]) == 10 && Value([10, 0]) == 0xa00 && Value([10, 0, 0]) == 0xa0000;
  }

  // ---------- building and asking a matcher ----------

  datatype Matcher = Matcher(n4: seq<Cidr>, n6: seq<Cidr>, inverse: bool)

  /** The networks of a list with addresses of the given width, in order. */
  function OfWidth(list: seq<Cidr>, width: nat): seq<Cidr> {
    if list == [] then []
    else OfWidth(list[..|list| - 1], width) + if |list[|list| - 1].ip| == width then [list[|list| - 1]] else []
  }

  /** The matcher holds exactly the networks of the database, each family sorted somehow. */
  ghost predicate Built(m: Matcher, list: seq<Cidr>) {
    Sorting.IsSortOf(m.n4, OfWidth(list, 4), Key) && Sorting.IsSortOf(m.n6, OfWidth(list, 16), Key)
  }

  lemma OfWidthNext(list: seq<Cidr>, i: nat, width: nat)
    requires i < |list|
    ensures OfWidth(list[..i + 1], width) == OfWidth(list[..i], width) + if |list[i].ip| == width then [list[i]] else []
  {
    assert list[..i + 1][..i] == list[..i];
  }

  /** `newGeoIPMatcher`: fails on an address that is neither 4 nor 16 bytes long. */
  method NewMatcher(list: seq<Cidr>, inverse: bool) returns (ok: bool, m: Matcher)
    ensures ok <==> forall i :: 0 <= i < |list| ==> |list[i].ip| in {4, 16}
    ensures ok ==> Built(m, list) && m.inverse == inverse
  {
    var n4, n6: seq<Cidr> := [], [];
    for i := 0 to |list|
      invariant forall j :: 0 <= j < i ==> |list[j].ip| in {4, 16}
      invariant n4 == OfWidth(list[..i], 4) && n6 == OfWidth(list[..i], 16)
    {
      OfWidthNext(list, i, 4);
      OfWidthNext(list, i, 16);
      if |list[i].ip| == 4 {
        n4 := n4 + [list[i]];
      } else if |list[i].ip| == 16 {
        n6 := n6 + [list[i]];
      } else {
        return false, Matcher([], [], false);
      }
    }
    assert list[..|list|] == list;
    Sorting.SortSorts(n4, Key);
    Sorting.SortSorts(n6, Key);
    return true, Matcher(Sorting.Sort(n4, Key), Sorting.Sort(n6, Key), inverse);
  }

  /** `matchIP`; an address of another length is in no network. */
  function MatchIP(m: Matcher, ip: IP): bool {
    var x := Norm(ip);
    if |x| == 4 then SearchIn(m.n4, x)
    else if |x| == 16 then SearchIn(m.n6, x)
    else false
  }

  function Match(m: Matcher, ipv4: IP, ipv6: IP): bool {
    if ipv4 != [] && MatchIP(m, ipv4) then !m.inverse
    else if ipv6 != [] && MatchIP(m, ipv6) then !m.inverse
    else m.inverse
  }

  /** Some network of the database, of the address's own family, contains it. */
  ghost predicate ListContains(list: seq<Cidr>, ip: IP) {
    exists c :: c in list && |c.ip| == |Norm(ip)| && Contains(c, Norm(ip))
  }

  lemma {:induction false} OfWidthIs(list: seq<Cidr>, width: nat, c: Cidr)
    ensures c in OfWidth(list, width) <==> c in list && |c.ip| == width
  {
    if list == [] {
    } else {
      OfWidthIs(list[..|list| - 1], width, c);
      assert list == list[..|list| - 1] + [list[|list| - 1]];
    }
  }

  lemma SameMembers(n: seq<Cidr>, list: seq<Cidr>, ip: IP)
    requires forall c :: c in n <==> c in list && |c.ip| == |Norm(ip)|
    ensures SomeContains(n, Norm(ip)) <==> ListContains(list, ip)
  {
    if SomeContains(n, Norm(ip)) {
      var i :| 0 <= i < |n| && Contains(n[i], Norm(ip));
      assert n[i] in n;
    }
  }

  lemma SortedMembers(n: seq<Cidr>, list: seq<Cidr>, width: nat)
    requires Sorting.IsSortOf(n, OfWidth(list, width), Key)
    ensures forall c :: c in n <==> c in list && |c.ip| == width
    ensures SortedNets(n, width)
  {
    forall c ensures c in n <==> c in list && |c.ip| == width {
      Sorting.SameElements(n, OfWidth(list, width), Key, c);
      OfWidthIs(list, width, c);
    }
    forall i | 0 <= i < |n| ensures |n[i].ip| == width {
      assert n[i] in n;
    }
  }

  lemma NormTwice(ip: IP)
    ensures Norm(Norm(ip)) == Norm(ip)
  {
  }

  /** The order and number of occurrences do not matter for disjointness. */
  lemma DisjointMembers(n: seq<Cidr>, list: seq<Cidr>)
    requires Disjoint(list) && forall c :: c in n ==> c in list
    ensures Disjoint(n)
  {
    forall i | 0 <= i < |n| ensures ValidPrefix(n[i]) {
      var i' := IndexIn(n, list, i);
    }
    forall i, j, x | 0 <= i < |n| && 0 <= j < |n| && n[i] != n[j] && InBlock(n[i], x) ensures !InBlock(n[j], x) {
      var i' := IndexIn(n, list, i);
      var j' := IndexIn(n, list, j);
    }
  }

  lemma IndexIn(n: seq<Cidr>, list: seq<Cidr>, i: nat) returns (i': nat)
    requires i < |n| && forall c :: c in n ==> c in list
    ensures i' < |list| && list[i'] == n[i]
  {
    assert n[i] in list;
    i' :| i' < |list| && list[i'] == n[i];
  }

  lemma MatchInFamily(n: seq<Cidr>, list: seq<Cidr>, ip: IP)
    requires Disjoint(list) && Sorting.IsSortOf(n, OfWidth(list, |Norm(ip)|), Key)
    ensures SearchIn(n, Norm(ip)) <==> ListContains(list, ip)
  {
    NormTwice(ip);
    SortedMembers(n, list, |Norm(ip)|);
    DisjointMembers(n, list);
    SearchAgreesWithScan(n, Norm(ip));
    SameMembers(n, list, ip);
  }

  lemma MatchIPByFamily(m: Matcher, list: seq<Cidr>, ip: IP)
    requires Built(m, list) && Disjoint(list)
    ensures MatchIP(m, ip) <==> |Norm(ip)| in {4, 16} && ListContains(list, ip)
  {
    if |Norm(ip)| == 4 {
      MatchInFamily(m.n4, list, ip);
    } else if |Norm(ip)| == 16 {
      MatchInFamily(m.n6, list, ip);
    }
  }

  // ---------- against the whole database ----------

  ghost predicate OfWidthContains(list: seq<Cidr>, ip: IP, width: nat) {
    exists i :: 0 <= i < |list| && |list[i].ip| == width && Contains(list[i], ip)
  }

  /** An IPv4 address that is contained only in networks stored in IPv4-mapped form. Those are
      kept with the IPv6 networks, where no IPv4 address is looked up. */
  ghost predicate Hidden(list: seq<Cidr>, ip: IP) {
    |Norm(ip)| == 4 && OfWidthContains(list, ip, 16) && !OfWidthContains(list, ip, 4)
  }

  lemma ContainsNorm(c: Cidr, ip: IP)
    ensures Contains(c, ip) == Contains(c, Norm(ip))
    ensures Contains(c, ip) ==> |Norm(ip)| in {4, 16} && |c.ip| in {4, 16} && |c.ip| >= |Norm(ip)|
  {
    NormTwice(ip);
  }

  lemma FamilyIs(list: seq<Cidr>, ip: IP)
    ensures ListContains(list, ip) <==> OfWidthContains(list, ip, |Norm(ip)|)
  {
    if ListContains(list, ip) {
      var c :| c in list && |c.ip| == |Norm(ip)| && Contains(c, Norm(ip));
      ContainsNorm(c, ip);
    }
    if OfWidthContains(list, ip, |Norm(ip)|) {
      var i :| 0 <= i < |list| && |list[i].ip| == |Norm(ip)| && Contains(list[i], ip);
      ContainsNorm(list[i], ip);
      assert list[i] in list;
    }
  }

  lemma SomeIsOfWidth(list: seq<Cidr>, ip: IP)
    ensures SomeContains(list, ip) <==>
            && |Norm(ip)| in {4, 16}
            && (OfWidthContains(list, ip, |Norm(ip)|) || (|Norm(ip)| == 4 && OfWidthContains(list, ip, 16)))
  {
    if SomeContains(list, ip) {
      var i :| 0 <= i < |list| && Contains(list[i], ip);
      ContainsNorm(list[i], ip);
    }
  }

  /** A matcher built from pairwise disjoint blocks with valid prefix lengths gives an address,
      in any form, the answer that some network of the database contains it, exactly when
      the address is not hidden. */
  lemma MatchIPAgreesExactlyUnlessHidden(m: Matcher, list: seq<Cidr>, ip: IP)
    requires Built(m, list) && Disjoint(list)
    ensures (MatchIP(m, ip) <==> SomeContains(list, ip)) <==> !Hidden(list, ip)
  {
    MatchIPByFamily(m, list, ip);
    FamilyIs(list, ip);
    SomeIsOfWidth(list, ip);
  }

  /** It answers so for all addresses exactly when none is hidden: no network in IPv4-mapped
      form contains an IPv4 address outside every four-byte network. In particular when no
      network is in that form. */
  lemma MatchIPAgreesWithDatabase(m: Matcher, list: seq<Cidr>)
    requires Built(m, list) && Disjoint(list)
    ensures (forall ip :: MatchIP(m, ip) <==> SomeContains(list, ip)) <==> forall ip :: !Hidden(list, ip)
    ensures (forall i :: 0 <= i < |list| ==> Norm(list[i].ip) == list[i].ip) ==> forall ip :: !Hidden(list, ip)
  {
    forall ip ensures (MatchIP(m, ip) <==> SomeContains(list, ip)) <==> !Hidden(list, ip) {
      MatchIPAgreesExactlyUnlessHidden(m, list, ip);
    }
  }

  const TEN_MAPPED := Cidr(MAPPED + [10, 0, 0, 0], 104)

  lemma SameTop(x: nat, y: nat)
    requires x / 256 == y / 256
    ensures SameBits(x, y, 24)
  {
    EightBits(x, y, 24);
    SameBitsSelf(x / 256, 16);
  }

  lemma TenMappedContains()
    ensures Contains(TEN_MAPPED, [10, 0, 0, 1])
  {
    var a := MAPPED + [10, 0, 0, 0];
    assert a[..12] == MAPPED && a[12..] == [10, 0, 0, 0];
    assert Norm(a) == [10, 0, 0, 0] && NetPrefix(TEN_MAPPED) == 8;
    LastByte(0);
    LastByte(1);
    SameTop(Value([10, 0, 0, 1]), Value([10, 0, 0, 0]));
  }

  lemma OneNetwork(c: Cidr)
    requires |c.ip| == 16 && ValidPrefix(c)
    ensures Built(Matcher([], [c], false), [c]) && Disjoint([c])
  {
    assert [c][..0] == [] && [] + [c] == [c];
    assert OfWidth([c], 4) == OfWidth([], 4);
    assert OfWidth([c], 16) == OfWidth([], 16) + [c];
  }

  /** Such a network hides addresses: 10.0.0.1 is in ::ffff:10.0.0.0/104, which is the whole
      database, and is not matched. */
  lemma MappedNetworkHides()
    ensures var m := Matcher([], [TEN_MAPPED], false);
            && Built(m, [TEN_MAPPED]) && Disjoint([TEN_MAPPED])
            && Contains(TEN_MAPPED, [10, 0, 0, 1]) && !MatchIP(m, [10, 0, 0, 1])
  {
    OneNetwork(TEN_MAPPED);
    TenMappedContains();
  }

  lemma FourBits(x: nat, y: nat, hostBits: nat)
    requires hostBits >= 4
    ensures SameBits(x, y, hostBits) == SameBits(x / 16, y / 16, hostBits - 4)
  {
    assert SameBits(x, y, hostBits) == SameBits(x / 2, y / 2, hostBits - 1);
    assert x / 2 / 2 == x / 4 && y / 2 / 2 == y / 4;
    assert SameBits(x / 2, y / 2, hostBits - 1) == SameBits(x / 4, y / 4, hostBits - 2);
    assert x / 4 / 2 == x / 8 && y / 4 / 2 == y / 8;
    assert SameBits(x / 4, y / 4, hostBits - 2) == SameBits(x / 8, y / 8, hostBits - 3);
    assert x / 8 / 2 == x / 16 && y / 8 / 2 == y / 16;
  }

  lemma EightBits(x: nat, y: nat, hostBits: nat)
    requires hostBits >= 8
    ensures SameBits(x, y, hostBits) == SameBits(x / 256, y / 256, hostBits - 8)
  {
    FourBits(x, y, hostBits);
    FourBits(x / 16, y / 16, hostBits - 4);
    assert x / 16 / 16 == x / 256 && y / 16 / 16 == y / 256;
  }

  /** What a matcher means for a host: whether one of its addresses is in the database, turned
      round for an inverse matcher. */
  lemma MatchMeansDatabase(m: Matcher, list: seq<Cidr>, ipv4: IP, ipv6: IP)
    requires Built(m, list) && Disjoint(list) && !Hidden(list, ipv4) && !Hidden(list, ipv6)
    ensures Match(m, ipv4, ipv6) <==> (SomeContains(list, ipv4) || SomeContains(list, ipv6)) != m.inverse
  {
    MatchIPAgreesExactlyUnlessHidden(m, list, ipv4);
    MatchIPAgreesExactlyUnlessHidden(m, list, ipv6);
    SomeIsOfWidth(list, ipv4);
    SomeIsOfWidth(list, ipv6);
  }
}
