/** Many streams over one connection: writes are chunked into PSH frames, the frames of
    all streams are interleaved and padded, and the server sorts them back. */
module Multiplex {
  import opened Sequences
  import opened Frames
  import opened PaddedWriter

  // ---------- the writing side ----------

  /** The payloads of the PSH frames for one write; an empty write makes one empty frame. */
  function Chunks(data: seq<byte>): seq<seq<byte>>
    decreases |data|
  {
    if |data| <= MAX_PAYLOAD then [data] else [data[..MAX_PAYLOAD]] + Chunks(data[MAX_PAYLOAD..])
  }

  function Push(sid: uint32, chunks: seq<seq<byte>>): seq<Frame> {
    seq(|chunks|, i requires 0 <= i < |chunks| => Frame(PSH, sid, chunks[i]))
  }

  lemma PushCons(sid: uint32, chunk: seq<byte>, chunks: seq<seq<byte>>)
    ensures Push(sid, [chunk] + chunks) == [Frame(PSH, sid, chunk)] + Push(sid, chunks)
  {
  }

  /** The first frame of a write, and what it leaves to the others. */
  lemma FirstChunk(sid: uint32, data: seq<byte>, n: nat)
    requires n == if |data| < MAX_PAYLOAD then |data| else MAX_PAYLOAD
    ensures Push(sid, Chunks(data)) ==
            [Frame(PSH, sid, data[..n])] + if n == |data| then [] else Push(sid, Chunks(data[n..]))
  {
    if n == |data| {
      assert data[..n] == data;
    } else {
      PushCons(sid, data[..n], Chunks(data[n..]));
    }
  }

  lemma SentSoFar(sent: seq<Frame>, sid: uint32, data: seq<byte>, i: nat, j: nat)
    requires i <= j <= |data| && PushBytes(sent) == data[..i]
    ensures PushBytes(sent + [Frame(PSH, sid, data[i..j])]) == data[..j]
  {
    PushBytesAppend(sent, Frame(PSH, sid, data[i..j]));
    assert data[..j] == data[..i] + data[i..j];
  }

  /** What the chunking loop sends. A chunk may fail, which ends the write. */
  method WriteDataFrame(sid: uint32, data0: seq<byte>) returns (written: nat, frames: seq<Frame>, ok: bool)
    ensures written <= |data0|
    ensures ok ==> frames == Push(sid, Chunks(data0)) && written == |data0|
    ensures !ok ==> frames < Push(sid, Chunks(data0)) && data0[..written] == PushBytes(frames)
  {
    var data := data0;
    written, frames, ok := 0, [], true;
    while true
      invariant written <= |data0| && data == data0[written..]
      invariant frames + Push(sid, Chunks(data)) == Push(sid, Chunks(data0))
      invariant PushBytes(frames) == data0[..written]
      decreases |data|
    {
      var n := if |data| < MAX_PAYLOAD then |data| else MAX_PAYLOAD;
      var chunk := data[..n];
      FirstChunk(sid, data, n);
      if * {
        return written, frames, false;
      }
      SentSoFar(frames, sid, data0, written, written + n);
      frames := frames + [Frame(PSH, sid, chunk)];
      written := written + n;
      data := data[n..];
      if |data| == 0 {
        return;
      }
    }
  }

  /** What one client stream does: write calls in order, and possibly a final FIN. */
  datatype Traffic = Traffic(writes: seq<seq<byte>>, fin: bool)

  function PushAll(sid: uint32, writes: seq<seq<byte>>): seq<Frame> {
    if writes == [] then []
    else PushAll(sid, writes[..|writes| - 1]) + Push(sid, Chunks(writes[|writes| - 1]))
  }

  function StreamFrames(sid: uint32, t: Traffic): seq<Frame> {
    [Frame(SYN, sid, [])] + PushAll(sid, t.writes) + if t.fin then [Frame(FIN, sid, [])] else []
  }

  /** The frames of one stream, in order. */
  function Project(fs: seq<Frame>, sid: uint32): seq<Frame> {
    if fs == [] then []
    else Project(fs[..|fs| - 1], sid) + if fs[|fs| - 1].sid == sid then [fs[|fs| - 1]] else []
  }

  /** `body` is some interleaving of the frames of the given streams, and nothing else. */
  ghost predicate Interleaves(body: seq<Frame>, traffic: map<uint32, Traffic>) {
    forall sid :: Project(body, sid) == if sid in traffic then StreamFrames(sid, traffic[sid]) else []
  }

  // ---------- the reading side ----------

  /** The streams of a server: those open, with the bytes received so far, those the peer has
      finished, and those a handler of the server has closed, with the bytes they received. */
  datatype Server = Server(
    settled: bool,
    stopped: bool,
    streams: map<uint32, seq<byte>>,
    finished: map<uint32, seq<byte>>,
    closed: map<uint32, seq<byte>>)

  const FRESH := Server(false, false, map[], map[], map[])

  /** What happens to a server: a frame arrives, or a handler closes its stream. */
  datatype Input = Wire(frame: Frame) | Close(sid: uint32)

  /** What the server's receive loop does with a frame, as far as stream data goes. */
  function Receive(s: Server, f: Frame): Server {
    if s.stopped then s
    else if f.cmd == PSH && f.sid in s.streams then
      s.(streams := s.streams[f.sid := s.streams[f.sid] + f.data])
    else if f.cmd == SYN then
      if !s.settled then s.(stopped := true)
      else if f.sid in s.streams || |s.streams| >= MAX_STREAMS then s
      else s.(streams := s.streams[f.sid := []])
    else if f.cmd == FIN && f.sid in s.streams then
      s.(streams := s.streams - {f.sid}, finished := s.finished[f.sid := s.streams[f.sid]])
    else if f.cmd == SETTINGS && f.data != [] then s.(settled := true)
    else if f.cmd == ALERT && f.data != [] then s.(stopped := true)
    else s
  }

  function Closed(s: Server, sid: uint32): Server {
    if sid in s.streams
    then s.(streams := s.streams - {sid}, closed := s.closed[sid := s.streams[sid]]) else s
  }

  function Handle(s: Server, x: Input): Server {
    match x
    case Wire(f) => Receive(s, f)
    case Close(sid) => Closed(s, sid)
  }

  function HandleAll(s: Server, xs: seq<Input>): Server {
    if xs == [] then s else Handle(HandleAll(s, xs[..|xs| - 1]), xs[|xs| - 1])
  }

  /** The frames among the inputs. */
  function FramesIn(xs: seq<Input>): seq<Frame> {
    if xs == [] then []
    else FramesIn(xs[..|xs| - 1]) + if xs[|xs| - 1].Wire? then [xs[|xs| - 1].frame] else []
  }

  function WithoutWaste(xs: seq<Input>): seq<Input> {
    if xs == [] then []
    else
      var x := xs[|xs| - 1];
      WithoutWaste(xs[..|xs| - 1]) + if x.Wire? && x.frame.cmd == WASTE then [] else [x]
  }

  lemma HandleAppend(s: Server, xs: seq<Input>, x: Input)
    ensures HandleAll(s, xs + [x]) == Handle(HandleAll(s, xs), x)
  {
    assert (xs + [x])[..|xs|] == xs;
  }

  lemma FramesInAppend(xs: seq<Input>, x: Input)
    ensures FramesIn(xs + [x]) == if x.Wire? then FramesIn(xs) + [x.frame] else FramesIn(xs)
  {
    assert (xs + [x])[..|xs|] == xs;
  }

  lemma NonWasteOne(f: Frame)
    ensures NonWaste([f]) == if f.cmd == WASTE then [] else [f]
  {
    assert NonWaste([f][1..]) == [];
  }

  lemma WithoutWasteAppend(xs: seq<Input>, x: Input)
    ensures WithoutWaste(xs + [x]) ==
            if x.Wire? && x.frame.cmd == WASTE then WithoutWaste(xs) else WithoutWaste(xs) + [x]
  {
    assert (xs + [x])[..|xs|] == xs;
  }

  lemma IgnoresWaste(s: Server, f: Frame)
    requires f.cmd == WASTE
    ensures Handle(s, Wire(f)) == s
  {
  }

  /** Padding frames do not touch the server, whatever happens around them. */
  lemma {:induction false} PaddingIsIgnored(s: Server, xs: seq<Input>)
    ensures HandleAll(s, xs) == HandleAll(s, WithoutWaste(xs))
  {
    if xs == [] {
    } else {
      var front, x := xs[..|xs| - 1], xs[|xs| - 1];
      assert xs == front + [x];
      PaddingIsIgnored(s, front);
      HandleAppend(s, front, x);
      WithoutWasteAppend(front, x);
      if x.Wire? && x.frame.cmd == WASTE {
        IgnoresWaste(HandleAll(s, front), x.frame);
      } else {
        HandleAppend(s, WithoutWaste(front), x);
      }
    }
  }

  lemma {:induction false} PaddingIsDropped(xs: seq<Input>)
    ensures FramesIn(WithoutWaste(xs)) == NonWaste(FramesIn(xs))
  {
    if xs == [] {
    } else {
      var front, x := xs[..|xs| - 1], xs[|xs| - 1];
      assert xs == front + [x];
      PaddingIsDropped(front);
      FramesInAppend(front, x);
      WithoutWasteAppend(front, x);
      FramesInAppend(WithoutWaste(front), x);
      if x.Wire? {
        NonWasteConcat(FramesIn(front), [x.frame]);
        NonWasteOne(x.frame);
      }
    }
  }

  // ---------- chunks carry the data ----------

  function PushBytes(fs: seq<Frame>): seq<byte> {
    if fs == [] then []
    else PushBytes(fs[..|fs| - 1]) + if fs[|fs| - 1].cmd == PSH then fs[|fs| - 1].data else []
  }

  lemma PushBytesAppend(fs: seq<Frame>, f: Frame)
    ensures PushBytes(fs + [f]) == PushBytes(fs) + if f.cmd == PSH then f.data else []
  {
    assert (fs + [f])[..|fs|] == fs;
  }

  lemma {:induction false} PushBytesConcat(a: seq<Frame>, b: seq<Frame>)
    ensures PushBytes(a + b) == PushBytes(a) + PushBytes(b)
    decreases |b|
  {
    if b == [] {
      assert a + b == a;
    } else {
      var b', f := b[..|b| - 1], b[|b| - 1];
      var last := if f.cmd == PSH then f.data else [];
      assert PushBytes(b) == PushBytes(b') + last;
      assert (a + b)[..|a + b| - 1] == a + b';
      assert PushBytes(a + b) == PushBytes(a + b') + last;
      PushBytesConcat(a, b');
    }
  }

  lemma PushBytesOne(f: Frame)
    ensures PushBytes([f]) == if f.cmd == PSH then f.data else []
  {
    PushBytesAppend([], f);
    assert [] + [f] == [f];
  }

  /** The chunks of a write fit their frames and concatenate to the data written. */
  lemma {:induction false} ChunksCarryData(sid: uint32, data: seq<byte>)
    ensures PushBytes(Push(sid, Chunks(data))) == data
    ensures AllEmittable(Push(sid, Chunks(data)))
    decreases |data|
  {
    if |data| <= MAX_PAYLOAD {
      PushBytesOne(Frame(PSH, sid, data));
      assert Push(sid, Chunks(data)) == [Frame(PSH, sid, data)];
    } else {
      var head, tail := data[..MAX_PAYLOAD], data[MAX_PAYLOAD..];
      var later := Push(sid, Chunks(tail));
      ChunksCarryData(sid, tail);
      PushCons(sid, head, Chunks(tail));
      PushBytesConcat([Frame(PSH, sid, head)], later);
      PushBytesOne(Frame(PSH, sid, head));
      assert head + tail == data;
    }
  }

  /** All chunks but the last are as long as a frame can be. */
  lemma {:induction false} ChunksAreFull(data: seq<byte>)
    ensures |Chunks(data)| >= 1 && forall i :: 0 <= i < |Chunks(data)| - 1 ==> |Chunks(data)[i]| == MAX_PAYLOAD
    ensures data != [] ==> Chunks(data)[|Chunks(data)| - 1] != []
    decreases |data|
  {
    if |data| <= MAX_PAYLOAD {
    } else {
      ChunksAreFull(data[MAX_PAYLOAD..]);
    }
  }

  predicate Pushes(fs: seq<Frame>, sid: uint32) {
    forall i :: 0 <= i < |fs| ==> fs[i].cmd == PSH && fs[i].sid == sid
  }

  lemma {:induction false} WritesCarryData(sid: uint32, writes: seq<seq<byte>>)
    ensures PushBytes(PushAll(sid, writes)) == Concat(writes)
    ensures AllEmittable(PushAll(sid, writes)) && Pushes(PushAll(sid, writes), sid)
  {
    if writes == [] {
    } else {
      var before, last := writes[..|writes| - 1], writes[|writes| - 1];
      WritesCarryData(sid, before);
      ChunksCarryData(sid, last);
      PushBytesConcat(PushAll(sid, before), Push(sid, Chunks(last)));
    }
  }

  /** The frames of one stream: a SYN first and only first, a FIN last and only last. */
  lemma StreamFramesShape(sid: uint32, t: Traffic)
    ensures var fs := StreamFrames(sid, t);
            && PushBytes(fs) == Concat(t.writes) && AllEmittable(fs)
            && fs[0] == Frame(SYN, sid, [])
            && (forall i :: 0 < i < |fs| ==> fs[i].cmd == PSH || (t.fin && i == |fs| - 1 && fs[i].cmd == FIN))
            && (t.fin ==> fs[|fs| - 1].cmd == FIN)
  {
    WritesCarryData(sid, t.writes);
    var syn, fin := [Frame(SYN, sid, [])], if t.fin then [Frame(FIN, sid, [])] else [];
    PushBytesConcat(syn, PushAll(sid, t.writes));
    PushBytesConcat(syn + PushAll(sid, t.writes), fin);
    PushBytesOne(syn[0]);
    if t.fin { PushBytesOne(fin[0]); }
  }

  // ---------- projections ----------

  lemma ProjectAppend(fs: seq<Frame>, f: Frame, sid: uint32)
    ensures Project(fs + [f], sid) == Project(fs, sid) + if f.sid == sid then [f] else []
  {
    assert (fs + [f])[..|fs|] == fs;
  }

  /** The frames of one stream seen so far are a prefix of all of them, and the next frame
      of that stream is the next one of that list. */
  lemma {:induction false} ProjectPrefix(fs: seq<Frame>, i: nat, sid: uint32)
    requires i < |fs|
    ensures Project(fs[..i], sid) <= Project(fs, sid)
    ensures fs[i].sid == sid ==> Project(fs[..i], sid) + [fs[i]] <= Project(fs, sid)
    decreases |fs|
  {
    var n := |fs| - 1;
    if i < n {
      ProjectPrefix(fs[..n], i, sid);
      assert fs[..n][..i] == fs[..i];
    }
  }

  // ---------- the round trip ----------

  /** The streams that are open after the frames of `prefix`. */
  function OpenIn(prefix: seq<Frame>, traffic: map<uint32, Traffic>): set<uint32> {
    set sid | sid in traffic && Open(Project(prefix, sid))
  }

  /** At no time are more streams open than the server admits. */
  ghost predicate UnderCap(body: seq<Frame>, traffic: map<uint32, Traffic>) {
    forall i :: 0 <= i <= |body| ==> |OpenIn(body[..i], traffic)| <= MAX_STREAMS
  }

  /** One stream at the server, of which the frames `seen` have arrived: if open or finished
      it holds exactly what was pushed, if closed by the server a part of it, and it is one
      of these unless it was refused. */
  ghost predicate InStepStream(s: Server, sid: uint32, seen: seq<Frame>, traffic: map<uint32, Traffic>, capped: bool) {
    && (sid in s.streams ==> sid in traffic && Open(seen) && s.streams[sid] == PushBytes(seen))
    && (sid in s.finished ==> sid in traffic && Ended(seen) && s.finished[sid] == PushBytes(seen))
    && (sid in s.closed ==> sid in traffic && seen != [] && s.closed[sid] <= PushBytes(seen))
    && (capped && seen != [] ==> sid in s.streams || sid in s.finished || sid in s.closed)
  }

  ghost predicate InStep(s: Server, prefix: seq<Frame>, traffic: map<uint32, Traffic>, capped: bool) {
    && s.settled && !s.stopped
    && forall sid :: InStepStream(s, sid, Project(prefix, sid), traffic, capped)
  }

  /** A stream is open when it has had its SYN and not its FIN. */
  predicate Open(fs: seq<Frame>) {
    fs != [] && forall i :: 0 <= i < |fs| ==> fs[i].cmd != FIN
  }

  predicate Ended(fs: seq<Frame>) {
    fs != [] && fs[|fs| - 1].cmd == FIN
  }

  lemma OpenBefore(s: Server, before: seq<Frame>, f: Frame, traffic: map<uint32, Traffic>, sid: uint32)
    requires InStepStream(s, sid, Project(before, sid), traffic, true) && sid in s.streams
    requires f.cmd == SYN && Project(before, f.sid) == []
    ensures sid in OpenIn(before + [f], traffic) && sid != f.sid
  {
    ProjectAppend(before, f, sid);
  }

  /** When the next frame opens a stream without going over the cap, the server has room. */
  lemma RoomForOne(s: Server, before: seq<Frame>, f: Frame, traffic: map<uint32, Traffic>)
    requires forall sid :: InStepStream(s, sid, Project(before, sid), traffic, true)
    requires f.sid in traffic && f.cmd == SYN && Project(before, f.sid) == []
    requires |OpenIn(before + [f], traffic)| <= MAX_STREAMS
    ensures |s.streams| < MAX_STREAMS
  {
    var all := OpenIn(before + [f], traffic);
    forall sid | sid in s.streams ensures sid in all && sid != f.sid {
      assert InStepStream(s, sid, Project(before, sid), traffic, true);
      OpenBefore(s, before, f, traffic, sid);
    }
    assert f.sid in all by {
      ProjectAppend(before, f, f.sid);
    }
    SubsetSize(s.streams.Keys, all - {f.sid});
  }

  /** A frame that may come next on a stream of which `seen` has arrived. */
  ghost predicate MayFollow(seen: seq<Frame>, f: Frame) {
    && f.cmd in {SYN, PSH, FIN} && (seen == [] <==> f.cmd == SYN)
    && forall j :: 0 <= j < |seen| ==> seen[j].cmd != FIN
  }

  lemma NextInStream(fs: seq<Frame>, seen: seq<Frame>, f: Frame, t: Traffic)
    requires fs == StreamFrames(f.sid, t) && seen + [f] <= fs
    ensures MayFollow(seen, f)
  {
    StreamFramesShape(f.sid, t);
    assert (seen + [f])[|seen|] == f == fs[|seen|];
    assert forall j :: 0 <= j < |seen| ==> seen[j] == (seen + [f])[j] == fs[j];
  }

  lemma NextFrame(body: seq<Frame>, i: nat, traffic: map<uint32, Traffic>)
    requires Interleaves(body, traffic) && i < |body|
    ensures body[i].sid in traffic && MayFollow(Project(body[..i], body[i].sid), body[i])
  {
    var sid := body[i].sid;
    ProjectPrefix(body, i, sid);
    NextInStream(StreamFrames(sid, traffic[sid]), Project(body[..i], sid), body[i], traffic[sid]);
  }

  lemma OwnStep(s: Server, f: Frame, seen: seq<Frame>, traffic: map<uint32, Traffic>, capped: bool)
    requires s.settled && !s.stopped && f.sid in traffic
    requires MayFollow(seen, f) && InStepStream(s, f.sid, seen, traffic, capped)
    requires capped && f.cmd == SYN ==> |s.streams| < MAX_STREAMS
    ensures InStepStream(Receive(s, f), f.sid, seen + [f], traffic, capped)
  {
    PushBytesAppend(seen, f);
    assert (seen + [f])[|seen|] == f;
    if f.cmd != FIN {
      assert forall i :: 0 <= i < |seen + [f]| ==> (seen + [f])[i].cmd != FIN;
    }
  }

  lemma OtherStep(s: Server, f: Frame, sid: uint32, seen: seq<Frame>, traffic: map<uint32, Traffic>, capped: bool)
    requires !s.stopped && f.cmd in {SYN, PSH, FIN} && sid != f.sid && InStepStream(s, sid, seen, traffic, capped)
    ensures InStepStream(Receive(s, f), sid, seen, traffic, capped)
  {
  }

  lemma CapAt(body: seq<Frame>, i: nat, traffic: map<uint32, Traffic>)
    requires UnderCap(body, traffic) && i < |body|
    ensures |OpenIn(body[..i] + [body[i]], traffic)| <= MAX_STREAMS
  {
    assert body[..i + 1] == body[..i] + [body[i]];
  }

  lemma InStepNext(s: Server, before: seq<Frame>, f: Frame, traffic: map<uint32, Traffic>, capped: bool)
    requires InStep(s, before, traffic, capped) && f.sid in traffic && MayFollow(Project(before, f.sid), f)
    requires capped ==> |OpenIn(before + [f], traffic)| <= MAX_STREAMS
    ensures InStep(Receive(s, f), before + [f], traffic, capped)
  {
    if capped && f.cmd == SYN {
      RoomForOne(s, before, f, traffic);
    }
    forall sid: uint32 ensures InStepStream(Receive(s, f), sid, Project(before + [f], sid), traffic, capped) {
      InStepAt(s, f, before, sid, traffic, capped);
    }
  }

  lemma InStepAt(s: Server, f: Frame, before: seq<Frame>, sid: uint32, traffic: map<uint32, Traffic>, capped: bool)
    requires InStep(s, before, traffic, capped) && f.sid in traffic && MayFollow(Project(before, f.sid), f)
    requires capped && f.cmd == SYN ==> |s.streams| < MAX_STREAMS
    ensures InStepStream(Receive(s, f), sid, Project(before + [f], sid), traffic, capped)
  {
    var seen := Project(before, sid);
    assert InStepStream(s, sid, seen, traffic, capped);
    ProjectAppend(before, f, sid);
    if sid == f.sid {
      OwnStep(s, f, seen, traffic, capped);
    } else {
      assert seen + [] == seen;
      OtherStep(s, f, sid, seen, traffic, capped);
    }
  }

  lemma InStepFrame(s: Server, body: seq<Frame>, i: nat, traffic: map<uint32, Traffic>, capped: bool)
    requires Interleaves(body, traffic) && i < |body| && (capped ==> UnderCap(body, traffic))
    requires InStep(s, body[..i], traffic, capped)
    ensures InStep(Receive(s, body[i]), body[..i + 1], traffic, capped)
  {
    var before, f := body[..i], body[i];
    assert body[..i + 1] == before + [f];
    assert f.sid in traffic && MayFollow(Project(before, f.sid), f) by { NextFrame(body, i, traffic); }
    assert capped ==> |OpenIn(before + [f], traffic)| <= MAX_STREAMS by {
      if capped { CapAt(body, i, traffic); }
    }
    InStepNext(s, before, f, traffic, capped);
  }

  /** Whatever arrives, a stream that stays open loses nothing of what it has received. */
  lemma OpenStreamsGrow(s: Server, f: Frame, sid: uint32)
    requires sid in s.streams && sid in Receive(s, f).streams
    ensures s.streams[sid] <= Receive(s, f).streams[sid]
    ensures !s.stopped && f.cmd == PSH && f.sid == sid ==> Receive(s, f).streams[sid] == s.streams[sid] + f.data
    ensures f.cmd != PSH || f.sid != sid ==> Receive(s, f).streams[sid] == s.streams[sid]
  {
  }

  lemma InStepClosed(s: Server, prefix: seq<Frame>, sid: uint32, traffic: map<uint32, Traffic>, capped: bool)
    requires InStep(s, prefix, traffic, capped)
    ensures InStep(Closed(s, sid), prefix, traffic, capped)
  {
    forall x: uint32 ensures InStepStream(Closed(s, sid), x, Project(prefix, x), traffic, capped) {
      assert InStepStream(s, x, Project(prefix, x), traffic, capped);
      ClosedStream(s, sid, x, Project(prefix, x), traffic, capped);
    }
  }

  lemma ClosedStream(s: Server, sid: uint32, x: uint32, seen: seq<Frame>, traffic: map<uint32, Traffic>, capped: bool)
    requires InStepStream(s, x, seen, traffic, capped)
    ensures InStepStream(Closed(s, sid), x, seen, traffic, capped)
  {
  }

  /** The server after inputs of which the frames are the settings and then some of `body`. */
  ghost predicate Tracks(s: Server, seen: seq<Frame>, traffic: map<uint32, Traffic>, capped: bool) {
    if seen == [] then s == FRESH else InStep(s, seen[1..], traffic, capped)
  }

  lemma TracksFrame(s: Server, all: seq<Frame>, i: nat, traffic: map<uint32, Traffic>, capped: bool)
    requires i < |all| && all[0].cmd == SETTINGS && all[0].data != []
    requires Interleaves(all[1..], traffic) && (capped ==> UnderCap(all[1..], traffic))
    requires Tracks(s, all[..i], traffic, capped)
    ensures Tracks(Receive(s, all[i]), all[..i + 1], traffic, capped)
  {
    if i == 0 {
      InStepStart(Receive(s, all[0]), traffic, capped);
      assert all[..1][1..] == [];
    } else {
      var body := all[1..];
      assert all[..i][1..] == body[..i - 1] && all[..i + 1][1..] == body[..i] && all[i] == body[i - 1];
      InStepFrame(s, body, i - 1, traffic, capped);
    }
  }

  lemma InStepStart(s: Server, traffic: map<uint32, Traffic>, capped: bool)
    requires s.settled && !s.stopped && s.streams == s.finished == s.closed == map[]
    ensures InStep(s, [], traffic, capped)
  {
  }

  lemma {:induction false} TracksAll(xs: seq<Input>, all: seq<Frame>, traffic: map<uint32, Traffic>, capped: bool)
    requires all != [] && all[0].cmd == SETTINGS && all[0].data != []
    requires Interleaves(all[1..], traffic) && (capped ==> UnderCap(all[1..], traffic))
    requires FramesIn(xs) <= all
    ensures Tracks(HandleAll(FRESH, xs), FramesIn(xs), traffic, capped)
  {
    if xs == [] {
    } else {
      var front, x := xs[..|xs| - 1], xs[|xs| - 1];
      assert FramesIn(front) <= FramesIn(xs);
      TracksAll(front, all, traffic, capped);
      var s, i := HandleAll(FRESH, front), |FramesIn(front)|;
      assert FramesIn(front) == all[..i];
      match x
      case Wire(f) =>
        assert FramesIn(xs) == all[..i + 1] && all[i] == f;
        TracksFrame(s, all, i, traffic, capped);
      case Close(sid) =>
        assert FramesIn(xs) == FramesIn(front);
        TracksClosed(s, sid, FramesIn(front), traffic, capped);
    }
  }

  lemma TracksClosed(s: Server, sid: uint32, seen: seq<Frame>, traffic: map<uint32, Traffic>, capped: bool)
    requires Tracks(s, seen, traffic, capped)
    ensures Tracks(Closed(s, sid), seen, traffic, capped)
  {
    if seen == [] {
    } else {
      InStepClosed(s, seen[1..], sid, traffic, capped);
    }
  }

  lemma InterleavedFrame(body: seq<Frame>, traffic: map<uint32, Traffic>, i: nat)
    requires Interleaves(body, traffic) && i < |body|
    ensures Emittable(body[i]) && body[i].cmd != WASTE
  {
    var sid := body[i].sid;
    ProjectPrefix(body, i, sid);
    StreamFramesShape(sid, traffic[sid]);
    var seen := Project(body[..i], sid);
    assert body[i] == StreamFrames(sid, traffic[sid])[|seen|];
  }

  lemma {:induction false} NonWasteSame(fs: seq<Frame>)
    requires forall i :: 0 <= i < |fs| ==> fs[i].cmd != WASTE
    ensures NonWaste(fs) == fs
  {
    if fs == [] {
    } else {
      NonWasteSame(fs[1..]);
    }
  }

  /** What the server holds of a stream in the end. If it is open, or if the peer finished it,
      it received exactly the bytes written to it; if a handler of the server closed it, a part
      of them, from the start. It is one of these unless the server had no room for it. */
  ghost predicate HoldsStream(s: Server, sid: uint32, traffic: map<uint32, Traffic>, capped: bool) {
    && (sid in s.streams ==> sid in traffic && !traffic[sid].fin && s.streams[sid] == Concat(traffic[sid].writes))
    && (sid in s.finished ==> sid in traffic && traffic[sid].fin && s.finished[sid] == Concat(traffic[sid].writes))
    && (sid in s.closed ==> sid in traffic && s.closed[sid] <= Concat(traffic[sid].writes))
    && (capped && sid in traffic ==> sid in s.streams || sid in s.finished || sid in s.closed)
  }

  ghost predicate Holds(s: Server, traffic: map<uint32, Traffic>, capped: bool) {
    !s.stopped && forall sid :: HoldsStream(s, sid, traffic, capped)
  }

  lemma OutcomeAt(s: Server, sid: uint32, all: seq<Frame>, traffic: map<uint32, Traffic>, capped: bool)
    requires InStepStream(s, sid, all, traffic, capped) && (sid in traffic ==> all == StreamFrames(sid, traffic[sid]))
    ensures HoldsStream(s, sid, traffic, capped)
  {
    if sid in traffic {
      StreamFramesShape(sid, traffic[sid]);
    }
  }

  lemma Outcome(s: Server, body: seq<Frame>, traffic: map<uint32, Traffic>, capped: bool)
    requires Interleaves(body, traffic) && InStep(s, body, traffic, capped)
    ensures Holds(s, traffic, capped)
  {
    forall sid: uint32 ensures HoldsStream(s, sid, traffic, capped) {
      OutcomeAt(s, sid, Project(body, sid), traffic, capped);
    }
  }

  /** After any interleaving of the frames of any number of streams and of padding, with
      handlers closing streams at any time in between. No stream is refused if never more
      were open at once than the server admits. */
  lemma ServerHolds(xs: seq<Input>, body: seq<Frame>, traffic: map<uint32, Traffic>, settings: seq<byte>)
    requires Interleaves(body, traffic) && settings != []
    requires NonWaste(FramesIn(xs)) == [Frame(SETTINGS, 0, settings)] + body
    ensures Holds(HandleAll(FRESH, xs), traffic, UnderCap(body, traffic))
  {
    var all := [Frame(SETTINGS, 0, settings)] + body;
    assert all[1..] == body;
    PaddingIsIgnored(FRESH, xs);
    PaddingIsDropped(xs);
    TracksAll(WithoutWaste(xs), all, traffic, UnderCap(body, traffic));
    Outcome(HandleAll(FRESH, xs), body, traffic, UnderCap(body, traffic));
  }

  /** The multiplexing round trip: whatever the streams wrote, however their frames were
      interleaved, held back, cut and padded, once nothing is held back the wire parses to its
      last byte, and with handlers of the server closing streams at any time in between, each
      stream that is open or finished received exactly the bytes written to it. */
  lemma MultiplexRoundTrip(settings: seq<byte>, traffic: map<uint32, Traffic>, body: seq<Frame>, es: seq<Event>,
                           xs: seq<Input>)
    requires settings != [] && |settings| <= MAX_PAYLOAD
    requires Interleaves(body, traffic)
    requires Submitted(es) == [Frame(SETTINGS, 0, settings)] + body
    requires Safe(Start(true), es) && Run(Start(true), es).writer.buffer == []
    requires FramesIn(xs) == Parse(Run(Start(true), es).wire).frames
    ensures Parse(Run(Start(true), es).wire).rest == []
    ensures Holds(HandleAll(FRESH, xs), traffic, UnderCap(body, traffic))
  {
    var fs := Submitted(es);
    forall i | 0 <= i < |fs| ensures Emittable(fs[i]) && fs[i].cmd != WASTE {
      if i > 0 { InterleavedFrame(body, traffic, i - 1); }
    }
    PaddingIsTransparent(true, es);
    NonWasteSame(fs);
    ServerHolds(xs, body, traffic, settings);
  }

  // ---------- a wire that breaks off ----------

  lemma PushBytesPrefix(a: seq<Frame>, b: seq<Frame>)
    requires a <= b
    ensures PushBytes(a) <= PushBytes(b)
  {
    PushBytesConcat(a, b[|a|..]);
    assert b == a + b[|a|..];
  }

  lemma ProjectOfPrefix(fs: seq<Frame>, i: nat, sid: uint32)
    requires i <= |fs|
    ensures Project(fs[..i], sid) <= Project(fs, sid)
  {
    if i == |fs| {
      assert fs[..i] == fs;
    } else {
      ProjectPrefix(fs, i, sid);
    }
  }

  /** What the server holds of a stream of which only a part may have arrived: a prefix of the
      bytes written to it, and all of them if the peer's FIN arrived. */
  ghost predicate HoldsPart(s: Server, sid: uint32, traffic: map<uint32, Traffic>) {
    && (sid in s.streams ==> sid in traffic && s.streams[sid] <= Concat(traffic[sid].writes))
    && (sid in s.finished ==> sid in traffic && traffic[sid].fin && s.finished[sid] == Concat(traffic[sid].writes))
    && (sid in s.closed ==> sid in traffic && s.closed[sid] <= Concat(traffic[sid].writes))
  }

  lemma PartialOutcome(s: Server, sid: uint32, seen: seq<Frame>, traffic: map<uint32, Traffic>)
    requires InStepStream(s, sid, seen, traffic, false)
    requires sid in traffic ==> seen <= StreamFrames(sid, traffic[sid])
    ensures HoldsPart(s, sid, traffic)
  {
    if sid in traffic {
      var all := StreamFrames(sid, traffic[sid]);
      StreamFramesShape(sid, traffic[sid]);
      PushBytesPrefix(seen, all);
      if sid in s.finished {
        assert all[|seen| - 1] == seen[|seen| - 1];
        assert seen == all;
      }
    }
  }

  lemma PartialTracks(s: Server, body: seq<Frame>, i: nat, traffic: map<uint32, Traffic>, sid: uint32)
    requires Interleaves(body, traffic) && i <= |body| && InStep(s, body[..i], traffic, false)
    ensures HoldsPart(s, sid, traffic)
  {
    ProjectOfPrefix(body, i, sid);
    assert InStepStream(s, sid, Project(body[..i], sid), traffic, false);
    PartialOutcome(s, sid, Project(body[..i], sid), traffic);
  }

  /** After any prefix of the frames, with padding and closing handlers in between. */
  lemma ServerHoldsPart(xs: seq<Input>, body: seq<Frame>, traffic: map<uint32, Traffic>, settings: seq<byte>,
                        sid: uint32)
    requires Interleaves(body, traffic) && settings != []
    requires NonWaste(FramesIn(xs)) <= [Frame(SETTINGS, 0, settings)] + body
    ensures HoldsPart(HandleAll(FRESH, xs), sid, traffic)
  {
    var all := [Frame(SETTINGS, 0, settings)] + body;
    assert all[1..] == body;
    PaddingIsIgnored(FRESH, xs);
    PaddingIsDropped(xs);
    TracksAll(WithoutWaste(xs), all, traffic, false);
    var seen := NonWaste(FramesIn(xs));
    if seen != [] {
      assert seen[1..] == body[..|seen| - 1];
      PartialTracks(HandleAll(FRESH, xs), body, |seen| - 1, traffic, sid);
    }
  }

  lemma NonWastePrefix(a: seq<Frame>, b: seq<Frame>)
    requires a <= b
    ensures NonWaste(a) <= NonWaste(b)
  {
    NonWasteConcat(a, b[|a|..]);
    assert b == a + b[|a|..];
  }

  lemma CutOffFrames(es: seq<Event>, p: seq<byte>)
    requires Safe(Start(true), es) && AllEmittable(Submitted(es)) && p <= Run(Start(true), es).wire
    ensures NonWaste(Parse(p).frames) <= NonWaste(Submitted(es))
  {
    var s, fs := Run(Start(true), es), Submitted(es);
    PaddingIsTransparent(true, es);
    var k: nat :| OnWire(s, fs, k);
    CutOffWire(p, s.wire);
    NonWastePrefix(fs[..k], fs);
  }

  /** At any point of the run, with frames still held back, and on a wire that breaks off
      anywhere: every stream the server holds has received a prefix of the bytes written to it,
      and one whose FIN arrived has received all of them. */
  lemma CutOffRoundTrip(settings: seq<byte>, traffic: map<uint32, Traffic>, body: seq<Frame>, es: seq<Event>,
                        p: seq<byte>, xs: seq<Input>, sid: uint32)
    requires settings != [] && |settings| <= MAX_PAYLOAD
    requires Interleaves(body, traffic)
    requires Submitted(es) <= [Frame(SETTINGS, 0, settings)] + body
    requires Safe(Start(true), es) && p <= Run(Start(true), es).wire
    requires FramesIn(xs) == Parse(p).frames
    ensures HoldsPart(HandleAll(FRESH, xs), sid, traffic)
  {
    var all := [Frame(SETTINGS, 0, settings)] + body;
    forall i | 0 <= i < |all| ensures Emittable(all[i]) && all[i].cmd != WASTE {
      if i > 0 { InterleavedFrame(body, traffic, i - 1); }
    }
    assert forall i :: 0 <= i < |Submitted(es)| ==> Submitted(es)[i] == all[i];
    CutOffFrames(es, p);
    NonWasteSame(Submitted(es));
    ServerHoldsPart(xs, body, traffic, settings, sid);
  }
}
