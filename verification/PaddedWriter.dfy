/** The writing half of a session: frames are held back while `buffering`, and the first
    packets of a client are cut and padded according to a schedule. */
module PaddedWriter {
  import opened Sequences
  import opened Frames

  const CHECK_MARK: int := -1

  /** What the padding factory generates for one packet: check marks and positive sizes. */
  type Size = l: int | l == CHECK_MARK || l > 0 witness 1

  // ---------- the splitter as a function ----------

  /** The lengths of the padding put into a packet of size `l` for the payload `b`. */
  function Filler(b: seq<byte>, l: nat): seq<nat> {
    if |b| > l then []
    else if |b| > 0 then if l - |b| - HEADER_SIZE > 0 then [l - |b| - HEADER_SIZE] else []
    else [l]
  }

  /** The bytes of a packet of size `l`, and the payload left after it. */
  function Packet(b: seq<byte>, l: nat): seq<byte> {
    if |b| > l then b[..l] else b + WasteAll(Filler(b, l))
  }

  function After(b: seq<byte>, l: nat): seq<byte> {
    if |b| > l then b[l..] else []
  }

  /** The writes made for payload `b` under `sizes`. */
  function Cut(b: seq<byte>, sizes: seq<Size>): seq<seq<byte>>
    decreases |sizes|
  {
    if sizes == [] then if b == [] then [] else [b]
    else
      var l, later := sizes[0], sizes[1..];
      if l == CHECK_MARK then if b == [] then [] else Cut(b, later)
      else [Packet(b, l)] + Cut(After(b, l), later)
  }

  /** The payload lengths of the padding frames among those writes. */
  function Paddings(b: seq<byte>, sizes: seq<Size>): seq<nat>
    decreases |sizes|
  {
    if sizes == [] then []
    else
      var l, later := sizes[0], sizes[1..];
      if l == CHECK_MARK then if b == [] then [] else Paddings(b, later)
      else Filler(b, l) + Paddings(After(b, l), later)
  }

  lemma CutNext(b: seq<byte>, sizes: seq<Size>, i: nat)
    requires i < |sizes|
    ensures Cut(b, sizes[i..]) ==
            if sizes[i] == CHECK_MARK then if b == [] then [] else Cut(b, sizes[i + 1..])
            else [Packet(b, sizes[i])] + Cut(After(b, sizes[i]), sizes[i + 1..])
  {
    assert sizes[i..][1..] == sizes[i + 1..];
  }

  lemma {:induction false} WasteAllConcat(a: seq<nat>, b: seq<nat>)
    ensures WasteAll(a + b) == WasteAll(a) + WasteAll(b)
  {
    if a == [] {
      assert a + b == b;
    } else {
      assert (a + b)[1..] == a[1..] + b;
      WasteAllConcat(a[1..], b);
    }
  }

  /** Cutting keeps every payload byte in order and only ever pads behind the payload. */
  lemma {:induction false} CutKeepsPayload(b: seq<byte>, sizes: seq<Size>)
    ensures Concat(Cut(b, sizes)) == b + WasteAll(Paddings(b, sizes))
    decreases |sizes|
  {
    if sizes == [] {
      if b != [] { ConcatOne(b); }
    } else {
      var l, later := sizes[0], sizes[1..];
      if l == CHECK_MARK {
        if b != [] { CutKeepsPayload(b, later); }
      } else {
        CutKeepsPayload(After(b, l), later);
        ConcatCons(Packet(b, l), Cut(After(b, l), later));
        WasteAllConcat(Filler(b, l), Paddings(After(b, l), later));
        PacketKeepsPayload(b, l, WasteAll(Paddings(After(b, l), later)));
      }
    }
  }

  lemma PacketKeepsPayload(b: seq<byte>, l: nat, tail: seq<byte>)
    ensures Packet(b, l) + (After(b, l) + tail) == b + (WasteAll(Filler(b, l)) + tail)
  {
    if |b| > l {
      assert b[..l] + b[l..] == b;
    }
  }

  lemma {:induction false} PaddingsBounded(b: seq<byte>, sizes: seq<Size>, max: int)
    requires forall i :: 0 <= i < |sizes| ==> sizes[i] <= max
    ensures forall i :: 0 <= i < |Paddings(b, sizes)| ==> Paddings(b, sizes)[i] <= max
    decreases |sizes|
  {
    if sizes == [] {
    } else {
      var l, later := sizes[0], sizes[1..];
      PaddingsBounded(if l == CHECK_MARK then b else After(b, l), later, max);
    }
  }

  // ---------- packet shapes ----------

  /** The scheduled sizes without the check marks. */
  function Plain(sizes: seq<Size>): seq<nat> {
    if sizes == [] then []
    else if sizes[0] == CHECK_MARK then Plain(sizes[1..])
    else [sizes[0]] + Plain(sizes[1..])
  }

  /** The shape of the `i`-th write for a payload of which `left` bytes are still unsent. */
  predicate Shaped(w: seq<byte>, l: int, left: int) {
    if left > l then |w| == l
    else if left > 0 then l - HEADER_SIZE <= |w| <= l
    else |w| == l + HEADER_SIZE
  }

  /** The `i`-th of the writes `cut` for payload `b` follows the `i`-th scheduled size to within
      a header, and is exactly as long while more payload remains; when the schedule runs out
      first, one last write carries all the payload that is left. */
  predicate FollowsSchedule(cut: seq<seq<byte>>, plain: seq<nat>, b: seq<byte>, i: nat)
    requires i < |cut|
  {
    && i <= |plain|
    && (i < |plain| ==> Shaped(cut[i], plain[i], |b| - Total(plain[..i])))
    && (i == |plain| ==> i == |cut| - 1 && Total(plain) < |b| && cut[i] == b[Total(plain)..])
  }

  lemma FollowsLater(first: seq<byte>, cut: seq<seq<byte>>, l: nat, plain: seq<nat>, b: seq<byte>, i: nat)
    requires l > 0 && i < |cut| && FollowsSchedule(cut, plain, After(b, l), i)
    ensures FollowsSchedule([first] + cut, [l] + plain, b, i + 1)
  {
    var all := [l] + plain;
    if i < |plain| {
      assert all[..i + 1] == [l] + plain[..i];
      TotalCons(l, plain[..i]);
    } else {
      TotalCons(l, plain);
    }
  }

  /** Every write follows the schedule. */
  lemma {:induction false} PacketShape(b: seq<byte>, sizes: seq<Size>, i: nat)
    requires i < |Cut(b, sizes)|
    ensures FollowsSchedule(Cut(b, sizes), Plain(sizes), b, i)
    decreases |sizes|
  {
    if sizes == [] {
    } else {
      var l, later := sizes[0], sizes[1..];
      if l == CHECK_MARK {
        PacketShape(b, later, i);
      } else if i == 0 {
        PacketLength(b, l);
      } else {
        PacketShape(After(b, l), later, i - 1);
        FollowsLater(Packet(b, l), Cut(After(b, l), later), l, Plain(later), b, i - 1);
      }
    }
  }

  lemma PacketLength(b: seq<byte>, l: nat)
    ensures Shaped(Packet(b, l), l, |b|)
  {
    var ns := Filler(b, l);
    if ns != [] {
      assert WasteAll(ns) == Waste(ns[0]) + WasteAll([]);
    }
  }

  /** A check mark ends the packet exactly when the sizes before it cover the payload;
      otherwise it changes nothing. */
  lemma {:induction false} CheckMarkStops(b: seq<byte>, before: seq<Size>, later: seq<Size>)
    ensures Cut(b, before + [CHECK_MARK] + later) ==
            if |b| <= Total(Plain(before)) then Cut(b, before) else Cut(b, before + later)
    decreases |before|
  {
    var all := before + [CHECK_MARK] + later;
    if before == [] {
      assert all[1..] == later && before + later == later;
    } else {
      var l, rest := before[0], before[1..];
      assert all[1..] == rest + [CHECK_MARK] + later && (before + later)[1..] == rest + later;
      if l == CHECK_MARK {
        if b != [] { CheckMarkStops(b, rest, later); }
      } else {
        TotalCons(l, Plain(rest));
        CheckMarkStops(After(b, l), rest, later);
      }
    }
  }

  // ---------- one call ----------

  datatype Writer = Writer(buffering: bool, buffer: seq<byte>, sendPadding: bool, packets: uint32)

  /** One call under the connection lock: the new state and the writes made. */
  function DoWrite(w: Writer, b: seq<byte>, stop: uint32, sizes: seq<Size>): (Writer, seq<seq<byte>>)
  {
    if w.buffering then (w.(buffer := w.buffer + b), [])
    else
      var payload, w' := w.buffer + b, w.(buffer := []);
      if !w.sendPadding then (w', [payload])
      else
        var packet := (w.packets + 1) % 0x1_0000_0000;
        if packet < stop then (w'.(packets := packet), Cut(payload, sizes))
        else (w'.(packets := packet, sendPadding := false), [payload])
  }

  /** What a failing connection leaves behind: some whole writes and a part of the next. */
  ghost predicate Truncated(log: seq<seq<byte>>, plan: seq<seq<byte>>) {
    exists j: nat, k: nat | j < |plan| && k <= |plan[j]| :: log == plan[..j] + [plan[j][..k]]
  }

  ghost predicate Failed(before: seq<seq<byte>>, writes: seq<seq<byte>>, plan: seq<seq<byte>>) {
    before <= writes && Truncated(writes[|before|..], plan)
  }

  lemma FailedAt(before: seq<seq<byte>>, done: seq<seq<byte>>, p: seq<byte>, k: nat, later: seq<seq<byte>>)
    requires k <= |p|
    ensures Failed(before, before + done + [p[..k]], done + [p] + later)
  {
    var plan, log := done + [p] + later, done + [p[..k]];
    assert plan[|done|] == p && plan[..|done|] == done;
    assert (before + done + [p[..k]])[|before|..] == log;
    assert log == plan[..|done|] + [plan[|done|][..k]];
  }

  // ---------- whole runs ----------

  datatype Event =
    | Buffering(on: bool)
    | Submit(frame: Frame, stop: uint32, sizes: seq<Size>)

  datatype Link = Link(writer: Writer, wire: seq<byte>)

  function Start(isClient: bool): Link {
    Link(Writer(false, [], isClient, 0), [])
  }

  function Apply(s: Link, e: Event): Link
  {
    match e
    case Buffering(on) => s.(writer := s.writer.(buffering := on))
    case Submit(f, stop, sizes) =>
      var (w, writes) := DoWrite(s.writer, Encode(f), stop, sizes);
      Link(w, s.wire + Concat(writes))
  }

  function Run(s: Link, es: seq<Event>): Link
  {
    if es == [] then s else Apply(Run(s, es[..|es| - 1]), es[|es| - 1])
  }

  function Submitted(es: seq<Event>): seq<Frame> {
    if es == [] then []
    else Submitted(es[..|es| - 1]) + if es[|es| - 1].Submit? then [es[|es| - 1].frame] else []
  }

  /** Whether the next packet is cut and padded. */
  predicate Pads(w: Writer, stop: uint32) {
    w.sendPadding && (w.packets + 1) % 0x1_0000_0000 < stop
  }

  /** The padding lengths one event puts on the wire. */
  function EventPaddings(s: Link, e: Event): seq<nat>
  {
    if e.Submit? && !s.writer.buffering && Pads(s.writer, e.stop)
    then Paddings(s.writer.buffer + Encode(e.frame), e.sizes)
    else []
  }

  /** No padding frame of the run has a length that the peer would misread. */
  predicate Safe(s: Link, es: seq<Event>)
  {
    es != [] ==>
      var es', e := es[..|es| - 1], es[|es| - 1];
      Safe(s, es') && AllSkippable(EventPaddings(Run(s, es'), e))
  }

  /** One packet, with nothing being held back any more. */
  lemma PacketWrites(w: Writer, payload: seq<byte>, b: seq<byte>, stop: uint32, sizes: seq<Size>)
    requires !w.buffering && payload == w.buffer + b
    ensures DoWrite(w, b, stop, sizes).0.buffer == []
    ensures DoWrite(w, b, stop, sizes).1 == if Pads(w, stop) then Cut(payload, sizes) else [payload]
  {
  }

  lemma PacketWire(w: Writer, b: seq<byte>, stop: uint32, sizes: seq<Size>)
    requires !w.buffering
    ensures DoWrite(w, b, stop, sizes).0.buffer == []
    ensures Concat(DoWrite(w, b, stop, sizes).1) ==
            w.buffer + b + WasteAll(if Pads(w, stop) then Paddings(w.buffer + b, sizes) else [])
  {
    var payload := w.buffer + b;
    PacketWrites(w, payload, b, stop, sizes);
    if Pads(w, stop) {
      CutKeepsPayload(payload, sizes);
    } else {
      ConcatOne(payload);
      assert payload + WasteAll([]) == payload;
    }
  }

  /** The state of a run: some prefix of the submitted frames is on the wire, possibly with
      padding after it, and the rest is held back. */
  ghost predicate Delivered(s: Link, fs: seq<Frame>, k: nat) {
    && k <= |fs|
    && s.writer.buffer == EncodeAll(fs[k..])
    && forall rest :: Sift(s.wire + rest) == Prepend(NonWaste(fs[..k]), Sift(rest))
  }

  lemma DeliveredStep(s: Link, fs: seq<Frame>, k: nat, e: Event) returns (k': nat)
    requires Delivered(s, fs, k)
    requires AllEmittable(fs)
    requires e.Submit? ==> Emittable(e.frame)
    requires AllSkippable(EventPaddings(s, e))
    ensures Delivered(Apply(s, e), fs + if e.Submit? then [e.frame] else [], k')
  {
    match e
    case Buffering(on) =>
      assert fs + [] == fs;
      k' := k;
    case Submit(f, stop, sizes) =>
      var fs' := fs + [f];
      if s.writer.buffering {
        k' := k;
        assert fs'[..k] == fs[..k] && fs'[k..] == fs[k..] + [f];
        EncodeAllAppend(fs[k..], f);
        assert s.wire + Concat([]) == s.wire;
      } else {
        k' := |fs'|;
        PacketWire(s.writer, Encode(f), stop, sizes);
        DeliveredFlush(s, fs, k, f, EventPaddings(s, e));
        assert fs'[..k'] == fs' && fs'[k'..] == [];
      }
  }

  lemma DeliveredFlush(s: Link, fs: seq<Frame>, k: nat, f: Frame, ns: seq<nat>)
    requires Delivered(s, fs, k) && Emittable(f) && AllEmittable(fs) && AllSkippable(ns)
    ensures forall rest :: Sift(s.wire + (s.writer.buffer + Encode(f) + WasteAll(ns)) + rest)
                           == Prepend(NonWaste(fs + [f]), Sift(rest))
  {
    var late := fs[k..] + [f];
    EncodeAllAppend(fs[k..], f);
    NonWasteConcat(fs[..k], late);
    assert fs[..k] + late == fs + [f];
    forall rest {
      FlushedRest(s, fs, k, late, ns, rest);
    }
  }

  lemma FlushedRest(s: Link, fs: seq<Frame>, k: nat, late: seq<Frame>, ns: seq<nat>, rest: seq<byte>)
    requires Delivered(s, fs, k) && AllEmittable(late) && AllSkippable(ns)
    ensures Sift(s.wire + (EncodeAll(late) + WasteAll(ns)) + rest)
            == Prepend(NonWaste(fs[..k]) + NonWaste(late), Sift(rest))
  {
    Reassociate(s.wire, EncodeAll(late), WasteAll(ns), rest);
    FlushedTail(NonWaste(fs[..k]), late, ns, rest);
  }

  lemma Reassociate(a: seq<byte>, b: seq<byte>, c: seq<byte>, d: seq<byte>)
    ensures a + (b + c) + d == a + (b + (c + d))
  {
  }

  lemma EncodeAllAppend(fs: seq<Frame>, f: Frame)
    ensures EncodeAll(fs + [f]) == EncodeAll(fs) + Encode(f)
  {
    EncodeAllConcat(fs, [f]);
    assert EncodeAll([f]) == Encode(f) + EncodeAll([]);
  }

  lemma FlushedTail(sent: seq<Frame>, late: seq<Frame>, ns: seq<nat>, rest: seq<byte>)
    requires AllEmittable(late) && AllSkippable(ns)
    ensures Prepend(sent, Sift(EncodeAll(late) + (WasteAll(ns) + rest)))
            == Prepend(sent + NonWaste(late), Sift(rest))
  {
    SiftFrames(late, WasteAll(ns) + rest);
    SiftWasteAll(ns, rest);
    PrependTwice(sent, NonWaste(late), Sift(rest));
  }

  lemma {:induction false} DeliveredRun(isClient: bool, es: seq<Event>) returns (k: nat)
    requires Safe(Start(isClient), es)
    requires AllEmittable(Submitted(es))
    ensures Delivered(Run(Start(isClient), es), Submitted(es), k)
  {
    if es == [] {
      k := 0;
      forall rest ensures Sift([] + rest) == Prepend([], Sift(rest)) {
        assert [] + rest == rest;
      }
    } else {
      var es', e := es[..|es| - 1], es[|es| - 1];
      var fs, fs' := Submitted(es), Submitted(es');
      assert forall i :: 0 <= i < |fs'| ==> fs'[i] == fs[i];
      assert e.Submit? ==> fs[|fs'|] == e.frame;
      k := DeliveredRun(isClient, es');
      k := DeliveredStep(Run(Start(isClient), es'), Submitted(es'), k, e);
    }
  }

  lemma EncodeAllNonEmpty(fs: seq<Frame>)
    ensures fs != [] ==> EncodeAll(fs) != []
  {
    if fs != [] {
      assert |Encode(fs[0])| >= HEADER_SIZE;
    }
  }

  /** Padding is transparent over whole runs: the wire parses without a remainder, and its
      frames without padding, followed by the frames still held back, are exactly the
      submitted frames in order. With nothing held back they are all there. */
  lemma PaddingIsTransparent(isClient: bool, es: seq<Event>)
    requires Safe(Start(isClient), es)
    requires AllEmittable(Submitted(es))
    ensures var s, fs := Run(Start(isClient), es), Submitted(es);
            && AllAccounted(s, fs)
            && (s.writer.buffer == [] ==> Sift(s.wire) == Parsed(NonWaste(fs), []))
  {
    var s, fs := Run(Start(isClient), es), Submitted(es);
    var k := DeliveredRun(isClient, es);
    DeliveredNow(s, fs, k);
  }

  /** The first `k` submitted frames are what the wire says, and the rest is held back. */
  ghost predicate OnWire(s: Link, fs: seq<Frame>, k: nat) {
    k <= |fs| && Sift(s.wire) == Parsed(NonWaste(fs[..k]), []) && s.writer.buffer == EncodeAll(fs[k..])
  }

  ghost predicate AllAccounted(s: Link, fs: seq<Frame>) {
    exists k: nat :: OnWire(s, fs, k)
  }

  lemma DeliveredNow(s: Link, fs: seq<Frame>, k: nat)
    requires Delivered(s, fs, k)
    ensures AllAccounted(s, fs)
    ensures s.writer.buffer == [] ==> Sift(s.wire) == Parsed(NonWaste(fs), [])
  {
    assert s.wire + [] == s.wire;
    assert Sift([]) == Parsed([], []);
    assert NonWaste(fs[..k]) + [] == NonWaste(fs[..k]);
    EncodeAllNonEmpty(fs[k..]);
    assert k == |fs| ==> fs[..k] == fs;
    assert OnWire(s, fs, k);
  }

  predicate Fits(sizes: seq<Size>) {
    forall i :: 0 <= i < |sizes| ==> sizes[i] <= MAX_PAYLOAD
  }

  /** The sizes of every packet of the run fit the 16-bit length field. */
  predicate AllFit(es: seq<Event>) {
    es != [] ==>
      var es', e := es[..|es| - 1], es[|es| - 1];
      AllFit(es') && (e.Submit? && !HoldingBack(es') ==> Fits(e.sizes))
  }

  lemma SmallPaddings(b: seq<byte>, sizes: seq<Size>)
    requires forall i :: 0 <= i < |sizes| ==> sizes[i] <= MAX_PAYLOAD
    ensures AllSkippable(Paddings(b, sizes))
  {
    PaddingsBounded(b, sizes, MAX_PAYLOAD);
  }

  /** Sizes that fit the 16-bit length field make every run safe. */
  lemma {:induction false} SmallSizesAreSafe(isClient: bool, es: seq<Event>)
    requires AllFit(es)
    ensures Safe(Start(isClient), es)
  {
    if es == [] {
    } else {
      var es', e := es[..|es| - 1], es[|es| - 1];
      SmallSizesAreSafe(isClient, es');
      TrackedRun(isClient, es');
      if e.Submit? && !HoldingBack(es') {
        SmallPaddings(Run(Start(isClient), es').writer.buffer + Encode(e.frame), e.sizes);
      }
    }
  }

  // ---------- when padding ends ----------

  /** Whether frames are held back after a run, by its events alone. */
  function HoldingBack(es: seq<Event>): bool {
    if es == [] then false
    else if es[|es| - 1].Buffering? then es[|es| - 1].on
    else HoldingBack(es[..|es| - 1])
  }

  /** The frames held back after a run. */
  function Held(es: seq<Event>): seq<Frame> {
    if es == [] then []
    else
      var es', e := es[..|es| - 1], es[|es| - 1];
      if e.Buffering? then Held(es') else if HoldingBack(es') then Held(es') + [e.frame] else []
  }

  /** The packets of a run are its submissions while nothing is held back; these are the stop
      numbers in force at each. */
  function Stops(es: seq<Event>): seq<uint32> {
    if es == [] then []
    else
      var es', e := es[..|es| - 1], es[|es| - 1];
      Stops(es') + if e.Submit? && !HoldingBack(es') then [e.stop] else []
  }

  /** Some packet had reached the stop number in force; packets are numbered from 1, modulo 2^32. */
  predicate StopReached(stops: seq<uint32>) {
    exists j :: 0 <= j < |stops| && stops[j] <= (j + 1) % 0x1_0000_0000
  }

  ghost predicate Tracked(s: Link, isClient: bool, es: seq<Event>) {
    && s.writer.buffering == HoldingBack(es) && s.writer.buffer == EncodeAll(Held(es))
    && (s.writer.sendPadding <==> isClient && !StopReached(Stops(es)))
    && (s.writer.sendPadding ==> s.writer.packets == |Stops(es)| % 0x1_0000_0000)
  }

  lemma StopReachedNext(stops: seq<uint32>, stop: uint32)
    ensures StopReached(stops + [stop]) <==> StopReached(stops) || stop <= (|stops| + 1) % 0x1_0000_0000
  {
    var all := stops + [stop];
    if StopReached(stops) {
      var j :| 0 <= j < |stops| && stops[j] <= (j + 1) % 0x1_0000_0000;
      assert all[j] == stops[j];
    }
    assert all[|stops|] == stop;
  }

  lemma NextNumber(n: nat)
    ensures (n % 0x1_0000_0000 + 1) % 0x1_0000_0000 == (n + 1) % 0x1_0000_0000
  {
  }

  /** In every run of a client the next packet is cut by its sizes exactly when no packet, this one
      included, has reached the stop number in force at it; otherwise, and for a server, it is
      written in one piece. It carries the frames held back and the one submitted. */
  lemma PacketIsCutExactlyWhen(isClient: bool, es: seq<Event>, f: Frame, stop: uint32, sizes: seq<Size>)
    requires !HoldingBack(es)
    ensures DoWrite(Run(Start(isClient), es).writer, Encode(f), stop, sizes).1 ==
            var payload := EncodeAll(Held(es) + [f]);
            if isClient && !StopReached(Stops(es) + [stop]) then Cut(payload, sizes) else [payload]
  {
    var w := Run(Start(isClient), es).writer;
    TrackedRun(isClient, es);
    EncodeAllAppend(Held(es), f);
    PacketWrites(w, EncodeAll(Held(es) + [f]), Encode(f), stop, sizes);
    PadsExactlyWhen(w, isClient, Stops(es), stop);
  }

  lemma PadsExactlyWhen(w: Writer, isClient: bool, stops: seq<uint32>, stop: uint32)
    requires w.sendPadding <==> isClient && !StopReached(stops)
    requires w.sendPadding ==> w.packets == |stops| % 0x1_0000_0000
    ensures Pads(w, stop) <==> isClient && !StopReached(stops + [stop])
  {
    StopReachedNext(stops, stop);
    NextNumber(|stops|);
  }

  lemma StopsNext(es: seq<Event>, e: Event)
    ensures Stops(es + [e]) == if e.Submit? && !HoldingBack(es) then Stops(es) + [e.stop] else Stops(es)
    ensures HoldingBack(es + [e]) == if e.Buffering? then e.on else HoldingBack(es)
    ensures Held(es + [e]) ==
            if e.Buffering? then Held(es) else if HoldingBack(es) then Held(es) + [e.frame] else []
  {
    assert (es + [e])[..|es|] == es;
  }

  lemma TrackedStep(s: Link, isClient: bool, es: seq<Event>, e: Event)
    requires Tracked(s, isClient, es)
    ensures Tracked(Apply(s, e), isClient, es + [e])
  {
    StopsNext(es, e);
    if e.Submit? {
      StopReachedNext(Stops(es), e.stop);
      NextNumber(|Stops(es)|);
      EncodeAllAppend(Held(es), e.frame);
    }
  }

  lemma {:induction false} TrackedRun(isClient: bool, es: seq<Event>)
    ensures Tracked(Run(Start(isClient), es), isClient, es)
  {
    if es == [] {
    } else {
      var es', e := es[..|es| - 1], es[|es| - 1];
      TrackedRun(isClient, es');
      TrackedStep(Run(Start(isClient), es'), isClient, es', e);
      assert es' + [e] == es;
    }
  }

  /** The bytes on the wire after a run, by its events alone. */
  function WireOf(isClient: bool, es: seq<Event>): seq<byte> {
    if es == [] then []
    else
      var es', e := es[..|es| - 1], es[|es| - 1];
      if e.Buffering? || HoldingBack(es') then WireOf(isClient, es')
      else
        var payload := EncodeAll(Held(es') + [e.frame]);
        WireOf(isClient, es') + if isClient && !StopReached(Stops(es)) then Concat(Cut(payload, e.sizes)) else payload
  }

  lemma {:induction false} WireIsExact(isClient: bool, es: seq<Event>)
    ensures Run(Start(isClient), es).wire == WireOf(isClient, es)
  {
    if es == [] {
    } else {
      var es', e := es[..|es| - 1], es[|es| - 1];
      WireIsExact(isClient, es');
      TrackedRun(isClient, es');
      if e.Submit? && !HoldingBack(es') {
        PacketIsCutExactlyWhen(isClient, es', e.frame, e.stop, e.sizes);
        ConcatOne(EncodeAll(Held(es') + [e.frame]));
      }
    }
  }

  /** Under one stop number the k-th packet is cut exactly when k is below it. */
  lemma ConstantStop(stops: seq<uint32>, stop: uint32)
    requires 0 < |stops| < 0x1_0000_0000 && forall j :: 0 <= j < |stops| ==> stops[j] == stop
    ensures StopReached(stops) <==> stop <= |stops|
  {
    if stop <= |stops| {
      assert stops[|stops| - 1] == stop;
    }
  }

  /** Padding that has ended does not come back, whatever stop numbers follow. */
  lemma PaddingStaysOver(stops: seq<uint32>, later: seq<uint32>)
    requires StopReached(stops)
    ensures StopReached(stops + later)
  {
    var j :| 0 <= j < |stops| && stops[j] <= (j + 1) % 0x1_0000_0000;
    assert (stops + later)[j] == stops[j];
  }

  /** Without check marks every size makes one write, and leftover payload one more. */
  lemma {:induction false} CutCount(b: seq<byte>, sizes: seq<Size>)
    requires forall i :: 0 <= i < |sizes| ==> sizes[i] != CHECK_MARK
    ensures |Plain(sizes)| == |sizes|
    ensures |Cut(b, sizes)| == |sizes| + if Total(Plain(sizes)) < |b| then 1 else 0
    decreases |sizes|
  {
    if sizes == [] {
    } else {
      CutCount(After(b, sizes[0]), sizes[1..]);
      TotalCons(sizes[0], Plain(sizes[1..]));
    }
  }

  // ---------- failing writes ----------

  lemma ParseOnePrefix(p: seq<byte>, b: seq<byte>)
    requires p <= b && ParseOne(p).Next?
    ensures ParseOne(b) == Next(ParseOne(p).frame, b[|p| - |ParseOne(p).rest|..])
    ensures ParseOne(p).rest <= ParseOne(b).rest
  {
    assert b == p + b[|p|..];
    assert StreamId(p) == StreamId(b);
  }

  /** A cut-off wire shows the peer only a prefix of the frames. */
  lemma {:induction false} CutOffWire(p: seq<byte>, b: seq<byte>)
    requires p <= b
    ensures Sift(p).frames <= Sift(b).frames
    decreases |p|
  {
    if ParseOne(p).Next? {
      var Next(f, rest) := ParseOne(p);
      ParseOnePrefix(p, b);
      SiftStep(p, f, rest);
      SiftStep(b, f, ParseOne(b).rest);
      CutOffWire(rest, ParseOne(b).rest);
    }
  }

  lemma TruncatedPrefixAt(done: seq<seq<byte>>, p: seq<byte>, k: nat, later: seq<seq<byte>>)
    requires k <= |p|
    ensures Concat(done + [p[..k]]) <= Concat(done + ([p] + later))
  {
    ConcatAppend(done, p[..k]);
    ConcatBoth(done, [p] + later);
    ConcatCons(p, later);
  }

  lemma TruncatedIsPrefix(log: seq<seq<byte>>, plan: seq<seq<byte>>)
    requires Truncated(log, plan)
    ensures Concat(log) <= Concat(plan)
  {
    var j: nat, k: nat :| j < |plan| && k <= |plan[j]| && log == plan[..j] + [plan[j][..k]];
    assert plan == plan[..j] + ([plan[j]] + plan[j + 1..]);
    TruncatedPrefixAt(plan[..j], plan[j], k, plan[j + 1..]);
  }

  /** After a failed write the peer has seen a prefix of what it would have seen. */
  lemma FailedWriteShowsPrefix(wire: seq<byte>, log: seq<seq<byte>>, plan: seq<seq<byte>>)
    requires Truncated(log, plan)
    ensures Sift(wire + Concat(log)).frames <= Sift(wire + Concat(plan)).frames
  {
    TruncatedIsPrefix(log, plan);
    CutOffWire(wire + Concat(log), wire + Concat(plan));
  }
}
