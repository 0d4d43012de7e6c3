/** The text that describes a padding scheme, and the sizes generated from it for one packet:
    a comma-separated list of ranges `min-max` and check marks `c` under the packet's number. */
module PaddingScheme {
  import opened Frames
  import opened Text
  import opened StringMap
  import opened PaddedWriter
  import opened Numerals

  const MAX_INT64: int := 0x7fff_ffff_ffff_ffff

  // ---------- numbers ----------

  predicate Digits(s: string) {
    s != [] && forall i :: 0 <= i < |s| ==> '0' <= s[i] <= '9'
  }

  /** `strconv.ParseInt(s, 10, 64)`. */
  function ParseInt(s: string): Option<int> {
    var signed := s != [] && (s[0] == '+' || s[0] == '-');
    var digits := if signed then s[1..] else s;
    if !Digits(digits) then None
    else
      var n := if signed && s[0] == '-' then -Read(digits, 10) else Read(digits, 10);
      if -MAX_INT64 - 1 <= n <= MAX_INT64 then Some(n) else None
  }

  function Decimal(n: nat): string {
    Number(n, 10)
  }

  lemma {:induction false} DecimalDigits(n: nat)
    ensures Digits(Decimal(n))
  {
    if n < 10 {
    } else {
      DecimalDigits(n / 10);
    }
  }

  lemma DecimalParses(n: nat)
    requires n <= MAX_INT64
    ensures Digits(Decimal(n)) && ParseInt(Decimal(n)) == Some(n)
  {
    DecimalDigits(n);
    NumberReads(n, 10);
  }

  lemma SignedText(d: string, sign: char)
    requires Digits(d) && sign in {'+', '-'}
    ensures var n := if sign == '-' then 0 - Read(d, 10) else Read(d, 10);
            ParseInt([sign] + d) == if -MAX_INT64 - 1 <= n <= MAX_INT64 then Some(n) else None
  {
    assert ([sign] + d)[1..] == d;
  }

  lemma UnsignedText(d: string)
    requires Digits(d)
    ensures ParseInt(d) == if -MAX_INT64 - 1 <= Read(d, 10) <= MAX_INT64 then Some(Read(d, 10)) else None
  {
  }

  /** Signs are read, and numbers beyond 64 bits are not. */
  lemma SignedParses(n: int)
    requires n >= 0
    ensures ParseInt(['+'] + Decimal(n)) == if n <= MAX_INT64 then Some(n) else None
    ensures ParseInt(['-'] + Decimal(n)) == if n <= MAX_INT64 + 1 then Some(0 - n) else None
    ensures n > MAX_INT64 ==> ParseInt(Decimal(n)) == None
  {
    DecimalDigits(n);
    NumberReads(n, 10);
    SignedText(Decimal(n), '+');
    SignedText(Decimal(n), '-');
    UnsignedText(Decimal(n));
  }

  // ---------- one packet ----------

  datatype AnyItem = Mark | Range(lo: int, hi: int)

  type Item = x: AnyItem | x.Range? ==> 0 < x.lo <= x.hi <= MAX_INT64 witness Mark

  /** What one part of the list stands for; a malformed part stands for nothing. */
  function ReadItem(part: string): seq<Item> {
    var bounds := Split(part, '-');
    if |bounds| == 2 then
      match (ParseInt(bounds[0]), ParseInt(bounds[1]))
      case (Some(x), Some(y)) => if x <= 0 || y <= 0 then [] else if x <= y then [Range(x, y)] else [Range(y, x)]
      case _ => []
    else if part == "c" then [Mark]
    else []
  }

  function Collect<T>(read: string -> seq<T>, parts: seq<string>): seq<T> {
    if parts == [] then [] else Collect(read, parts[..|parts| - 1]) + read(parts[|parts| - 1])
  }

  function ReadItems(parts: seq<string>): seq<Item> {
    Collect(ReadItem, parts)
  }

  /** The sizes an item allows: the upper end only when it is also the lower. */
  predicate Allows(x: Item, l: int) {
    if x.Mark? then l == CHECK_MARK else x.lo <= l <= x.hi && (l < x.hi || x.lo == x.hi)
  }

  ghost predicate Realises(sizes: seq<Size>, items: seq<Item>) {
    |sizes| == |items| && forall i :: 0 <= i < |items| ==> Allows(items[i], sizes[i])
  }

  datatype Factory = Factory(scheme: StrMap, stop: uint32)

  function Schedule(f: Factory, pkt: uint32): seq<Item> {
    if Decimal(pkt) in f.scheme then ReadItems(Split(f.scheme[Decimal(pkt)], ',')) else []
  }

  /** One round of the loop: what is appended for one part of the list. */
  method Pick(part: string) returns (sizes: seq<Size>)
    ensures Realises(sizes, ReadItem(part))
  {
    var bounds := Split(part, '-');
    if |bounds| == 2 {
      var lo, hi := ParseInt(bounds[0]), ParseInt(bounds[1]);
      if lo.None? || hi.None? {
        return [];
      }
      var x, y := lo.value, hi.value;
      if x > y {
        x, y := y, x;
      }
      if x <= 0 || y <= 0 {
        return [];
      }
      if x == y {
        return [x];
      }
      var random :| 0 <= random < y - x;
      return [random + x];
    } else if part == "c" {
      return [CHECK_MARK];
    }
    return [];
  }

  lemma RealisesConcat(a: seq<Size>, items: seq<Item>, b: seq<Size>, more: seq<Item>)
    requires Realises(a, items) && Realises(b, more)
    ensures Realises(a + b, items + more)
  {
  }

  /** The generated sizes are one pick for every item of the packet's schedule, in order. */
  method GenerateRecordPayloadSizes(f: Factory, pkt: uint32) returns (sizes: seq<Size>)
    ensures Realises(sizes, Schedule(f, pkt))
  {
    sizes := [];
    var key := Decimal(pkt);
    if key in f.scheme {
      var parts := Split(f.scheme[key], ',');
      for i := 0 to |parts|
        invariant Realises(sizes, ReadItems(parts[..i]))
      {
        assert parts[..i + 1][..i] == parts[..i];
        var more := Pick(parts[i]);
        RealisesConcat(sizes, ReadItems(parts[..i]), more, ReadItem(parts[i]));
        sizes := sizes + more;
      }
      assert parts[..|parts|] == parts;
    }
  }

  /** A part is a range exactly if it is two numbers above zero, in either order, around a dash. */
  ghost predicate SpellsRange(part: string, lo: int, hi: int) {
    exists a, b :: SpelledBy(part, a, b, lo, hi)
  }

  ghost predicate SpelledBy(part: string, a: string, b: string, lo: int, hi: int) {
    && part == a + ['-'] + b && '-' !in a && '-' !in b && 0 < lo <= hi
    && ((ParseInt(a) == Some(lo) && ParseInt(b) == Some(hi)) || (ParseInt(a) == Some(hi) && ParseInt(b) == Some(lo)))
  }

  lemma TwoParts(part: string)
    requires |Split(part, '-')| == 2
    ensures var parts := Split(part, '-');
            part == parts[0] + ['-'] + parts[1] && '-' !in parts[0] && '-' !in parts[1]
  {
    var parts := Split(part, '-');
    JoinSplit(part, '-');
    SplitIsFree(part, '-');
    assert parts[1..] == [parts[1]];
  }

  lemma SpelledReads(part: string, a: string, b: string, lo: int, hi: int)
    requires SpelledBy(part, a, b, lo, hi)
    ensures ReadItem(part) == [Range(lo, hi)]
  {
    SplitFirst(a, b, '-');
    SplitPlain(b, '-');
    assert Split(part, '-') == [a, b];
    ReadsBounds(part, [a, b]);
  }

  lemma ReadsBounds(part: string, bounds: seq<string>)
    requires Split(part, '-') == bounds && |bounds| == 2 && ParseInt(bounds[0]).Some? && ParseInt(bounds[1]).Some?
    requires ParseInt(bounds[0]).value > 0 && ParseInt(bounds[1]).value > 0
    ensures var x, y := ParseInt(bounds[0]).value, ParseInt(bounds[1]).value;
            ReadItem(part) == if x <= y then [Range(x, y)] else [Range(y, x)]
  {
  }

  /** What a part of the list stands for: a range, in ascending order, exactly if it spells one; a
      check mark exactly if it is `c`; and otherwise nothing. */
  lemma ItemIsExact(part: string)
    ensures forall lo, hi :: SpellsRange(part, lo, hi) ==> ReadItem(part) == [Range(lo, hi)]
    ensures part == "c" ==> ReadItem(part) == [Mark]
    ensures ReadItem(part) == [] || ReadItem(part) == [Mark]
            || (|ReadItem(part)| == 1 && SpellsRange(part, ReadItem(part)[0].lo, ReadItem(part)[0].hi))
    ensures ReadItem(part) == [Mark] ==> part == "c"
  {
    forall lo, hi | SpellsRange(part, lo, hi) ensures ReadItem(part) == [Range(lo, hi)] {
      var a, b :| SpelledBy(part, a, b, lo, hi);
      SpelledReads(part, a, b, lo, hi);
    }
    SplitPlain("c", '-');
    if |Split(part, '-')| == 2 && ReadItem(part) != [] {
      TwoParts(part);
      var x := ReadItem(part)[0];
      assert SpelledBy(part, Split(part, '-')[0], Split(part, '-')[1], x.lo, x.hi);
    }
  }

  // ---------- the text of a schedule ----------

  function ItemText(x: Item): string {
    if x.Mark? then "c" else Decimal(x.lo) + ['-'] + Decimal(x.hi)
  }

  function ItemTexts(items: seq<Item>): seq<string> {
    seq(|items|, i requires 0 <= i < |items| => ItemText(items[i]))
  }

  lemma DigitsOnly(a: string, b: string)
    requires Digits(a) && Digits(b)
    ensures '-' !in a && '-' !in b && ',' !in a + ['-'] + b
  {
  }

  /** A part with two bounds that read as numbers is a range. */
  lemma RangeBack(a: string, b: string, lo: int, hi: int)
    requires '-' !in a && '-' !in b && ParseInt(a) == Some(lo) && ParseInt(b) == Some(hi) && 0 < lo <= hi
    ensures ReadItem(a + ['-'] + b) == [Range(lo, hi)]
  {
    SplitFirst(a, b, '-');
    SplitPlain(b, '-');
    var bounds := Split(a + ['-'] + b, '-');
    assert bounds[0] == a && bounds[1] == b;
  }

  lemma MarkBack()
    ensures ReadItem("c") == [Mark] && ',' !in "c"
  {
    SplitPlain("c", '-');
  }

  lemma ItemBack(x: Item)
    ensures ReadItem(ItemText(x)) == [x] && ',' !in ItemText(x)
  {
    match x
    case Mark => MarkBack();
    case Range(lo, hi) =>
      DecimalParses(lo);
      DecimalParses(hi);
      DigitsOnly(Decimal(lo), Decimal(hi));
      RangeBack(Decimal(lo), Decimal(hi), lo, hi);
  }

  lemma {:induction false} ItemsBack<T>(read: string -> seq<T>, texts: seq<string>, items: seq<T>)
    requires |texts| == |items| && forall i :: 0 <= i < |items| ==> read(texts[i]) == [items[i]]
    ensures Collect(read, texts) == items
  {
    if items == [] {
    } else {
      var n := |items| - 1;
      ItemsBack(read, texts[..n], items[..n]);
      assert items == items[..n] + [items[n]];
    }
  }

  /** Every non-empty schedule has a text that reads back as that schedule. */
  lemma ScheduleBack(items: seq<Item>)
    requires items != []
    ensures ReadItems(Split(Join(ItemTexts(items), ','), ',')) == items
  {
    var texts := ItemTexts(items);
    forall i | 0 <= i < |texts| ensures ReadItem(texts[i]) == [items[i]] && ',' !in texts[i] {
      ItemBack(items[i]);
    }
    SplitJoin(texts, ',');
    ItemsBack(ReadItem, texts, items);
  }

  // ---------- the whole scheme ----------

  function FactoryOf(scheme: StrMap): Option<Factory> {
    if "stop" !in scheme then None
    else
      match ParseInt(scheme["stop"])
      case None => None
      case Some(stop) => Some(Factory(scheme, stop % 0x1_0000_0000))
  }

  /** A scheme without entries or without a readable `stop` gives no factory; a `stop` out of
      the range of 32 bits wraps. A missing `stop` reads as the empty string. */
  method NewPaddingFactory(raw: string) returns (f: Option<Factory>)
    ensures f == FactoryOf(Decode(raw))
  {
    var scheme := FromBytes(raw);
    if |scheme| == 0 {
      return None;
    }
    var stop := ParseInt(if "stop" in scheme then scheme["stop"] else "");
    if stop.None? {
      return None;
    }
    f := Some(Factory(scheme, stop.value % 0x1_0000_0000));
  }

  /** There is a factory exactly if `stop` reads as a number, and its stop is that number modulo
      2^32, also for a negative one. */
  lemma FactoryIsExact(m: StrMap)
    ensures FactoryOf(m).Some? <==> "stop" in m && ParseInt(m["stop"]).Some?
    ensures FactoryOf(m).Some? ==>
              && FactoryOf(m).value.scheme == m
              && (FactoryOf(m).value.stop - ParseInt(m["stop"]).value) % 0x1_0000_0000 == 0
  {
    if FactoryOf(m).Some? {
      SameModulo(ParseInt(m["stop"]).value);
    }
  }

  lemma SameModulo(n: int)
    ensures (n % 0x1_0000_0000 - n) % 0x1_0000_0000 == 0
  {
  }

  /** A scheme written down as text comes back, in every order of its lines: the factory has
      the written `stop`, and under every packet number the schedule written for it. */
  lemma SchemeBack(m: StrMap, order: seq<string>, stop: uint32, pkt: uint32, items: seq<Item>)
    requires Enumerates(order, m) && Clean(m) && "stop" in m && m["stop"] == Decimal(stop)
    requires items != []
    requires Decimal(pkt) in m && m[Decimal(pkt)] == Join(ItemTexts(items), ',')
    ensures var f := FactoryOf(Decode(Join(Lines(m, order), '\n')));
            f.Some? && f.value.stop == stop && Schedule(f.value, pkt) == items
  {
    RoundTripExactlyWhenClean(m, order);
    DecimalParses(stop);
    ScheduleBack(items);
    FactoryFor(m, m["stop"], stop);
    ScheduleFor(Factory(m, stop), pkt, m[Decimal(pkt)], items);
  }

  lemma FactoryFor(m: StrMap, text: string, stop: uint32)
    requires "stop" in m && m["stop"] == text && ParseInt(text) == Some(stop)
    ensures FactoryOf(m) == Some(Factory(m, stop))
  {
  }

  lemma ScheduleFor(f: Factory, pkt: uint32, list: string, items: seq<Item>)
    requires Decimal(pkt) in f.scheme && f.scheme[Decimal(pkt)] == list && ReadItems(Split(list, ',')) == items
    ensures Schedule(f, pkt) == items
  {
  }

  // ---------- safety of a scheme ----------

  /** The largest size an item can generate. */
  function Largest(x: Item): Size {
    if x.Mark? then CHECK_MARK else if x.lo == x.hi then x.lo else x.hi - 1
  }

  ghost predicate FitsField(sizes: seq<Size>) {
    forall i :: 0 <= i < |sizes| ==> sizes[i] <= MAX_PAYLOAD
  }

  function Largests(items: seq<Item>): seq<Size> {
    seq(|items|, i requires 0 <= i < |items| => Largest(items[i]))
  }

  /** Whatever is picked, all sizes of a packet fit the length field of a frame, exactly when
      no range of its schedule reaches beyond: 65535 for a single size, 65536 for the
      upper end of a range. */
  lemma SchemeFitsExactly(f: Factory, pkt: uint32)
    ensures (forall sizes :: Realises(sizes, Schedule(f, pkt)) ==> FitsField(sizes))
            <==> forall i :: 0 <= i < |Schedule(f, pkt)| ==> Largest(Schedule(f, pkt)[i]) <= MAX_PAYLOAD
  {
    var items := Schedule(f, pkt);
    var top := Largests(items);
    assert Realises(top, items);
    if i :| 0 <= i < |items| && Largest(items[i]) > MAX_PAYLOAD {
      assert top[i] > MAX_PAYLOAD;
    }
  }

  /** The sizes of a submission are the factory's for packet `pkt`, and none of them can go
      beyond the length field. */
  ghost predicate Generated(e: Event, f: Factory, pkt: uint32) {
    && e.Submit? && e.stop == f.stop && Realises(e.sizes, Schedule(f, pkt))
    && forall i :: 0 <= i < |Schedule(f, pkt)| ==> Largest(Schedule(f, pkt)[i]) <= MAX_PAYLOAD
  }

  ghost predicate FromScheme(e: Event, pkt: uint32) {
    exists f :: Generated(e, f, pkt)
  }

  /** The k-th packet of the run has the stop number and the sizes that some factory, any one at
      each packet, gives for packet number k. */
  ghost predicate Scheduled(es: seq<Event>) {
    es != [] ==>
      var es', e := es[..|es| - 1], es[|es| - 1];
      && Scheduled(es')
      && (e.Submit? && !HoldingBack(es') ==> FromScheme(e, (|Stops(es')| + 1) % 0x1_0000_0000))
  }

  lemma {:induction false} ScheduledFit(es: seq<Event>)
    requires Scheduled(es)
    ensures AllFit(es)
  {
    if es == [] {
    } else {
      var es', e := es[..|es| - 1], es[|es| - 1];
      ScheduledFit(es');
      if e.Submit? && !HoldingBack(es') {
        GeneratedFits(e, (|Stops(es')| + 1) % 0x1_0000_0000);
      }
    }
  }

  /** Under schemes that fit, changed as often as one likes during the run, padding is
      transparent whatever sizes are picked. */
  lemma FittingSchemesAreTransparent(isClient: bool, es: seq<Event>)
    requires Scheduled(es) && AllEmittable(Submitted(es))
    ensures var s, fs := PaddedWriter.Run(Start(isClient), es), Submitted(es);
            AllAccounted(s, fs) && (s.writer.buffer == [] ==> Sift(s.wire) == Parsed(NonWaste(fs), []))
  {
    ScheduledFit(es);
    SmallSizesAreSafe(isClient, es);
    PaddingIsTransparent(isClient, es);
  }

  lemma GeneratedFits(e: Event, pkt: uint32)
    requires FromScheme(e, pkt)
    ensures e.Submit? && Fits(e.sizes)
  {
    var f :| Generated(e, f, pkt);
    SchemeFitsExactly(f, pkt);
    assert FitsField(e.sizes);
  }
}
