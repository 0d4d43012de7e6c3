/** A server session as a state machine. The receive loop, the stream handlers and whoever
    closes the session interleave freely; each critical section (the stream lock, the
    connection lock, a `sync.Once`) is one step. A step that is not possible in a state
    leaves it unchanged, so every sequence of events is a run. */
module ServerSession {
  import opened Frames

  /** What the receive loop takes off the wire, as far as it matters here. The version of a
      settings frame is what `strconv.Atoi` makes of its "v" entry, if anything. */
  datatype Version = NoVersion | Version(v: int)
  datatype Message = Settings(version: Version, stale: bool) | EmptySettings | Syn(sid: uint32) | Fin(sid: uint32)
                   | AlertText | HeartRequest(sid: uint32) | OtherFrame

  datatype Owner = TheSession | Stream(handle: nat)

  /** The history of a run: frames taken and sent, streams registered, streams dead. */
  datatype Entry =
    | Got(msg: Message)
    | Sent(cmd: byte, sid: uint32, owner: Owner)
    | Registered(handle: nat, sid: uint32)
    | Died(handle: nat, local: bool)

  /** Who won the stream's `dieOnce`: a close that tells the peer (by the handler, or because
      of an error the peer reported), or a local close by the peer's FIN or by the session. */
  datatype Cause = Alive | ByHandler | ByLocal

  /** Progress of the handler that closes a stream and tells the peer. */
  datatype Closer = NotClosing | Checking | Writing | Deleting | Finished

  /** Progress of the handshake report: `reportOnce` taken, then a SYNACK for version 2. */
  datatype Reporter = Unreported | Reporting | Reported

  datatype StreamState = StreamState(sid: uint32, cause: Cause, closer: Closer, reporter: Reporter)

  /** Where the receive loop is. */
  datatype Loop =
    | Reading
    | Accepting(sid: uint32)
    | Refusing(sid: uint32)
    | ClosingLocally(handle: nat)
    | Greeting(version: Version, stale: bool)
    | Hello
    | Alerting
    | Answering(sid: uint32)
    | Stopped

  datatype State = State(
    settings: bool,
    peerVersion: uint32,
    streams: map<uint32, nat>,
    objects: seq<StreamState>,
    loop: Loop,
    closed: bool,
    sweeping: bool,
    trace: seq<Entry>)

  const START := State(false, 0, map[], [], Reading, false, false, [])

  datatype Event =
    | Receive(msg: Message)
    | LoopStep(ok: bool)
    | Report(handle: nat)
    | ReportWrite(handle: nat, wanted: bool, ok: bool)
    | CloseStream(handle: nat)
    | CloseCheck(handle: nat)
    | CloseWrite(handle: nat, ok: bool)
    | CloseDelete(handle: nat)
    | CloseSession
    | SweepStart
    | SweepOne(sid: uint32)
    | SweepEnd

  // ---------- the steps ----------

  function Log(s: State, e: Entry): State {
    s.(trace := s.trace + [e])
  }

  /** A control frame. A failed write closes the session and sends nothing. */
  function Send(s: State, ok: bool, cmd: byte, sid: uint32, owner: Owner): State {
    if ok then Log(s, Sent(cmd, sid, owner)) else s.(closed := true)
  }

  /** A control frame of the receive loop, which goes on with `next` if the write succeeds. */
  function Reply(s: State, ok: bool, next: Loop, cmd: byte, sid: uint32): State {
    Send(s.(loop := if ok then next else Stopped), ok, cmd, sid, TheSession)
  }

  function Received(s: State, msg: Message): State {
    var s' := Log(s, Got(msg));
    match msg
    case Settings(v, stale) => s'.(settings := true, loop := Greeting(v, stale))
    case Syn(sid) => s'.(loop := if s.settings then Accepting(sid) else Alerting)
    case Fin(sid) =>
      if sid in s.streams then s'.(streams := s.streams - {sid}, loop := ClosingLocally(s.streams[sid])) else s'
    case HeartRequest(sid) => s'.(loop := Answering(sid))
    case AlertText => s'.(loop := Stopped)
    case EmptySettings => s'
    case OtherFrame => s'
  }

  /** `closeLocally`: takes effect only if the stream is not dead already. */
  function CloseLocally(s: State, h: nat): State {
    if h < |s.objects| && s.objects[h].cause == Alive
    then Log(s.(objects := s.objects[h := s.objects[h].(cause := ByLocal)]), Died(h, true))
    else s
  }

  function Accepted(s: State, sid: uint32): State {
    if sid in s.streams then s.(loop := Reading)
    else if |s.streams| >= MAX_STREAMS then s.(loop := Refusing(sid))
    else
      var h := |s.objects|;
      Log(s.(streams := s.streams[sid := h],
             objects := s.objects + [StreamState(sid, Alive, NotClosing, Unreported)],
             loop := Reading),
          Registered(h, sid))
  }

  function Looped(s: State, ok: bool): State {
    match s.loop
    case Reading => s
    case Stopped => s
    case Accepting(sid) => if s.sweeping then s else Accepted(s, sid)
    case Refusing(sid) => Reply(s, ok, Reading, if s.peerVersion >= 2 then SYNACK else FIN, sid)
    case ClosingLocally(h) => CloseLocally(s.(loop := Reading), h)
    case Greeting(v, true) => Reply(s, ok, Greeting(v, false), UPDATE_PADDING, 0)
    case Greeting(v, false) =>
      if v.Version? && v.v >= 2 then s.(peerVersion := v.v % 0x1_0000_0000, loop := Hello) else s.(loop := Reading)
    case Hello => Reply(s, ok, Reading, SERVER_SETTINGS, 0)
    case Alerting => Reply(s, ok, Stopped, ALERT, 0)
    case Answering(sid) => Reply(s, ok, Reading, HEART_RESPONSE, sid)
  }

  function SetCloser(s: State, h: nat, c: Closer): State
    requires h < |s.objects|
  {
    s.(objects := s.objects[h := s.objects[h].(closer := c)])
  }

  function SetReporter(s: State, h: nat, r: Reporter): State
    requires h < |s.objects|
  {
    s.(objects := s.objects[h := s.objects[h].(reporter := r)])
  }

  /** The end of a close: the id leaves the map, whichever stream it belongs to. */
  function Unlisted(s: State, h: nat): State
    requires h < |s.objects|
  {
    SetCloser(s, h, Finished).(streams := s.streams - {s.objects[h].sid})
  }

  /** A step of the handler of stream `h`. */
  function Handled(s: State, e: Event, h: nat): State
    requires h < |s.objects|
  {
    var o := s.objects[h];
    match e
    case Report(_) => if o.reporter == Unreported then SetReporter(s, h, Reporting) else s
    case ReportWrite(_, wanted, ok) =>
      if o.reporter != Reporting then s
      else if wanted && s.peerVersion >= 2 then Send(SetReporter(s, h, Reported), ok, SYNACK, o.sid, Stream(h))
      else SetReporter(s, h, Reported)
    case CloseStream(_) =>
      if o.cause != Alive then s
      else Log(s.(objects := s.objects[h := o.(cause := ByHandler, closer := Checking)]), Died(h, false))
    case CloseCheck(_) =>
      if o.closer == Checking then SetCloser(s, h, if s.closed then Finished else Writing) else s
    case CloseWrite(_, ok) =>
      if o.closer == Writing then Send(SetCloser(s, h, Deleting), ok, FIN, o.sid, Stream(h)) else s
    case CloseDelete(_) => if o.closer == Deleting && !s.sweeping then Unlisted(s, h) else s
    case _ => s
  }

  function Apply(s: State, e: Event): State {
    match e
    case Receive(msg) => if s.loop == Reading && !(s.sweeping && msg.Fin?) then Received(s, msg) else s
    case LoopStep(ok) => Looped(s, ok)
    case CloseSession => s.(closed := true)
    case SweepStart => if s.closed then s.(sweeping := true) else s
    case SweepOne(sid) => if s.sweeping && sid in s.streams then CloseLocally(s, s.streams[sid]) else s
    case SweepEnd =>
      if s.sweeping && AllDead(s) then s.(sweeping := false, streams := map[]) else s
    case _ => if e.handle < |s.objects| then Handled(s, e, e.handle) else s
  }

  predicate AllDead(s: State) {
    forall sid :: sid in s.streams && s.streams[sid] < |s.objects| ==> s.objects[s.streams[sid]].cause != Alive
  }

  function Run(es: seq<Event>): State {
    if es == [] then START else Apply(Run(es[..|es| - 1]), es[|es| - 1])
  }

  // ---------- reading a history ----------

  function Count(trace: seq<Entry>, cmd: byte, h: nat): nat {
    if trace == [] then 0
    else
      var e := trace[|trace| - 1];
      Count(trace[..|trace| - 1], cmd, h) + if e.Sent? && e.cmd == cmd && e.owner == Stream(h) then 1 else 0
  }

  function Deaths(trace: seq<Entry>, h: nat, local: bool): nat {
    if trace == [] then 0
    else Deaths(trace[..|trace| - 1], h, local) + if trace[|trace| - 1] == Died(h, local) then 1 else 0
  }

  predicate IsSettings(e: Entry) {
    e.Got? && e.msg.Settings?
  }

  predicate SawSettings(trace: seq<Entry>) {
    exists i :: 0 <= i < |trace| && IsSettings(trace[i])
  }

  predicate IsV2(e: Entry) {
    e.Got? && e.msg.Settings? && e.msg.version.Version? && e.msg.version.v >= 2
  }

  predicate SawV2(trace: seq<Entry>) {
    exists i :: 0 <= i < |trace| && IsV2(trace[i])
  }

  /** Every registration comes after a non-empty settings frame, and every SYNACK or server
      settings frame after one with a version of at least 2. */
  predicate Ordered(trace: seq<Entry>) {
    trace != [] ==>
      var before, e := trace[..|trace| - 1], trace[|trace| - 1];
      && Ordered(before)
      && (e.Registered? ==> SawSettings(before))
      && (e.Sent? && e.cmd in {SYNACK, SERVER_SETTINGS} ==> SawV2(before))
  }

  // ---------- the invariant ----------

  /** The map and the receive loop refer to streams that exist, under their own ids. */
  predicate Linked(s: State) {
    && |s.streams| <= MAX_STREAMS
    && (forall sid :: sid in s.streams ==> s.streams[sid] < |s.objects| && s.objects[s.streams[sid]].sid == sid)
  }

  /** What the session believes about the peer has been said by the peer. */
  predicate Greeted(settings: bool, version: int, loop: Loop, trace: seq<Entry>) {
    && Ordered(trace)
    && (settings || loop.Accepting? ==> SawSettings(trace))
    && (version >= 2 || loop == Hello ==> SawV2(trace))
    && (loop.Greeting? && loop.version.Version? && loop.version.v >= 2 ==> SawV2(trace))
  }

  /** What the history says about stream `h`, given its state. */
  predicate Counted(o: StreamState, trace: seq<Entry>, h: nat) {
    && Count(trace, FIN, h) <= (if o.closer in {Deleting, Finished} then 1 else 0)
    && Count(trace, SYNACK, h) <= (if o.reporter == Reported then 1 else 0)
    && (o.closer == NotClosing <==> o.cause != ByHandler)
    && Deaths(trace, h, true) == (if o.cause == ByLocal then 1 else 0)
    && Deaths(trace, h, false) == (if o.cause == ByHandler then 1 else 0)
  }

  const UNBORN := StreamState(0, Alive, NotClosing, Unreported)

  function Object(s: State, h: nat): StreamState {
    if h < |s.objects| then s.objects[h] else UNBORN
  }

  ghost predicate AllCounted(s: State) {
    forall h: nat :: Counted(Object(s, h), s.trace, h)
  }

  /** A live stream is registered, or about to be closed because of the peer's FIN, unless
      its id has been used for another stream as well. */
  ghost predicate Reachable(s: State, h: nat)
    requires h < |s.objects|
  {
    Listed(s, h) || s.loop == ClosingLocally(h) || Namesake(s, h)
  }

  predicate Listed(s: State, h: int) {
    0 <= h < |s.objects| && s.objects[h].sid in s.streams && s.streams[s.objects[h].sid] == h
  }

  predicate Namesake(s: State, h: int)
    requires 0 <= h < |s.objects|
  {
    exists k :: 0 <= k < |s.objects| && k != h && s.objects[k].sid == s.objects[h].sid
  }

  ghost predicate LiveReachable(s: State) {
    forall h: nat | h < |s.objects| && s.objects[h].cause == Alive :: Reachable(s, h)
  }

  // ---------- each part is kept ----------

  lemma SawAppend(t: seq<Entry>, e: Entry)
    ensures SawSettings(t) ==> SawSettings(t + [e])
    ensures SawV2(t) ==> SawV2(t + [e])
    ensures IsSettings(e) ==> SawSettings(t + [e])
    ensures IsV2(e) ==> SawV2(t + [e])
  {
    assert (t + [e])[|t|] == e;
    if i :| 0 <= i < |t| && IsSettings(t[i]) {
      assert (t + [e])[i] == t[i];
    }
    if i :| 0 <= i < |t| && IsV2(t[i]) {
      assert (t + [e])[i] == t[i];
    }
  }

  lemma OrderedAppend(t: seq<Entry>, e: Entry)
    requires Ordered(t)
    requires e.Registered? ==> SawSettings(t)
    requires e.Sent? && e.cmd in {SYNACK, SERVER_SETTINGS} ==> SawV2(t)
    ensures Ordered(t + [e])
  {
    assert (t + [e])[..|t|] == t;
  }

  lemma GreetedLog(settings: bool, version: int, loop: Loop, trace: seq<Entry>, e: Entry)
    requires Greeted(settings, version, loop, trace)
    requires e.Registered? ==> SawSettings(trace)
    requires e.Sent? && e.cmd in {SYNACK, SERVER_SETTINGS} ==> SawV2(trace)
    ensures Greeted(settings, version, loop, trace + [e])
  {
    SawAppend(trace, e);
    OrderedAppend(trace, e);
  }

  ghost predicate Inv(s: State) {
    Linked(s) && Greeted(s.settings, s.peerVersion, s.loop, s.trace) && AllCounted(s) && LiveReachable(s)
  }

  // Linked

  lemma LinkedRemove(s: State, sid: uint32)
    requires Linked(s)
    ensures Linked(s.(streams := s.streams - {sid}))
  {
    assert (s.streams - {sid}).Keys == s.streams.Keys - {sid};
    assert |s.streams - {sid}| <= |s.streams|;
  }

  lemma LinkedReceived(s: State, msg: Message)
    requires Linked(s)
    ensures Linked(Received(s, msg))
  {
    if msg.Fin? { LinkedRemove(s, msg.sid); }
    LinkedSame(s.(streams := Received(s, msg).streams), Received(s, msg));
  }

  lemma LinkedAccepted(s: State, sid: uint32)
    requires Linked(s)
    ensures Linked(Accepted(s, sid))
  {
    if sid !in s.streams {
      assert |s.streams[sid := |s.objects|]| == |s.streams| + 1;
    }
  }

  lemma LinkedSame(s: State, t: State)
    requires Linked(s) && t.streams == s.streams && |t.objects| == |s.objects|
    requires forall h :: 0 <= h < |s.objects| ==> t.objects[h].sid == s.objects[h].sid
    ensures Linked(t)
  {
  }

  lemma LinkedLooped(s: State, ok: bool)
    requires Linked(s)
    ensures Linked(Looped(s, ok))
  {
    if s.loop.Accepting? {
      LinkedAccepted(s, s.loop.sid);
    } else if s.loop.ClosingLocally? {
      LinkedSame(s, CloseLocally(s.(loop := Reading), s.loop.handle));
    } else {
      LoopedOutside(s, ok);
      LinkedSame(s, Looped(s, ok));
    }
  }

  lemma LinkedHandled(s: State, e: Event, h: nat)
    requires Linked(s) && h < |s.objects|
    ensures Linked(Handled(s, e, h))
  {
    var added := HandledLocally(s, e, h);
    LinkedRemove(s, s.objects[h].sid);
    LinkedSame(s.(streams := Handled(s, e, h).streams), Handled(s, e, h));
  }

  // Greeted

  ghost predicate WellGreeted(s: State) {
    Greeted(s.settings, s.peerVersion, s.loop, s.trace)
  }

  lemma GreetedGot(settings: bool, version: int, trace: seq<Entry>, msg: Message, settings': bool, loop: Loop)
    requires Greeted(settings, version, Reading, trace)
    requires settings' || loop.Accepting? ==> settings || msg.Settings?
    requires loop != Hello && (loop.Greeting? ==> msg.Settings? && loop.version == msg.version)
    ensures Greeted(settings', version, loop, trace + [Got(msg)])
  {
    GreetedLog(settings, version, Reading, trace, Got(msg));
    SawAppend(trace, Got(msg));
  }

  lemma GreetedReceived(s: State, msg: Message)
    requires WellGreeted(s) && s.loop == Reading
    ensures WellGreeted(Received(s, msg))
  {
    var t := Received(s, msg);
    GreetedGot(s.settings, s.peerVersion, s.trace, msg, t.settings, t.loop);
  }

  lemma GreetedSend(s: State, ok: bool, cmd: byte, sid: uint32, owner: Owner)
    requires WellGreeted(s) && (cmd in {SYNACK, SERVER_SETTINGS} ==> SawV2(s.trace))
    ensures WellGreeted(Send(s, ok, cmd, sid, owner))
  {
    if ok { GreetedLog(s.settings, s.peerVersion, s.loop, s.trace, Sent(cmd, sid, owner)); }
  }

  lemma GreetedCloseLocally(s: State, h: nat)
    requires WellGreeted(s)
    ensures WellGreeted(CloseLocally(s, h))
  {
    GreetedLog(s.settings, s.peerVersion, s.loop, s.trace, Died(h, true));
  }

  lemma GreetedReply(s: State, ok: bool, next: Loop, cmd: byte, sid: uint32)
    requires WellGreeted(s) && Greeted(s.settings, s.peerVersion, next, s.trace)
    requires cmd in {SYNACK, SERVER_SETTINGS} ==> SawV2(s.trace)
    ensures WellGreeted(Reply(s, ok, next, cmd, sid))
  {
    GreetedSend(s.(loop := if ok then next else Stopped), ok, cmd, sid, TheSession);
  }

  lemma GreetedAccepted(s: State, sid: uint32)
    requires WellGreeted(s) && s.loop == Accepting(sid)
    ensures WellGreeted(Accepted(s, sid))
  {
    GreetedLog(s.settings, s.peerVersion, Reading, s.trace, Registered(|s.objects|, sid));
  }

  lemma GreetedGreeting(s: State, ok: bool)
    requires WellGreeted(s) && s.loop.Greeting?
    ensures WellGreeted(Looped(s, ok))
  {
    if s.loop.stale { GreetedReply(s, ok, Greeting(s.loop.version, false), UPDATE_PADDING, 0); }
  }

  lemma GreetedLooped(s: State, ok: bool)
    requires WellGreeted(s)
    ensures WellGreeted(Looped(s, ok))
  {
    match s.loop
    case Accepting(sid) => GreetedAccepted(s, sid);
    case Refusing(sid) => GreetedReply(s, ok, Reading, if s.peerVersion >= 2 then SYNACK else FIN, sid);
    case ClosingLocally(h) => GreetedCloseLocally(s.(loop := Reading), h);
    case Greeting(v, stale) => GreetedGreeting(s, ok);
    case Hello => GreetedReply(s, ok, Reading, SERVER_SETTINGS, 0);
    case Alerting => GreetedReply(s, ok, Stopped, ALERT, 0);
    case Answering(sid) => GreetedReply(s, ok, Reading, HEART_RESPONSE, sid);
    case Reading =>
    case Stopped =>
  }

  lemma GreetedHandled(s: State, e: Event, h: nat)
    requires WellGreeted(s) && h < |s.objects|
    ensures WellGreeted(Handled(s, e, h))
  {
    var o := s.objects[h];
    if e.ReportWrite? {
      if s.peerVersion >= 2 { GreetedSend(SetReporter(s, h, Reported), e.ok, SYNACK, o.sid, Stream(h)); }
    } else if e.CloseStream? {
      GreetedLog(s.settings, s.peerVersion, s.loop, s.trace, Died(h, false));
    } else if e.CloseWrite? {
      GreetedSend(SetCloser(s, h, Deleting), e.ok, FIN, o.sid, Stream(h));
    }
  }

  // Counted

  predicate Concerns(e: Entry, h: nat) {
    (e.Sent? && e.owner == Stream(h)) || (e.Died? && e.handle == h)
  }

  lemma CountAppend(t: seq<Entry>, e: Entry, h: nat)
    ensures forall cmd :: Count(t + [e], cmd, h) ==
                          Count(t, cmd, h) + if e.Sent? && e.cmd == cmd && e.owner == Stream(h) then 1 else 0
    ensures forall local :: Deaths(t + [e], h, local) == Deaths(t, h, local) + if e == Died(h, local) then 1 else 0
  {
    assert (t + [e])[..|t|] == t;
  }

  /** An entry for stream `h` leaves every other stream's account alone. */
  lemma CountedOthers(s: State, t: State, e: Entry, h: nat)
    requires AllCounted(s) && t.trace == s.trace + [e]
    requires forall k: nat :: Concerns(e, k) ==> k == h
    requires forall k: nat :: k != h ==> Object(t, k) == Object(s, k)
    requires Counted(Object(t, h), t.trace, h)
    ensures AllCounted(t)
  {
    forall k: nat ensures Counted(Object(t, k), t.trace, k) {
      if k != h {
        assert Counted(Object(s, k), s.trace, k) && !Concerns(e, k);
        CountAppend(s.trace, e, k);
      }
    }
  }

  lemma CountedQuiet(s: State, t: State, e: Entry)
    requires AllCounted(s) && t.trace == s.trace + [e]
    requires forall k: nat :: !Concerns(e, k) && Object(t, k) == Object(s, k)
    ensures AllCounted(t)
  {
    assert Counted(Object(s, 0), s.trace, 0);
    CountAppend(s.trace, e, 0);
    CountedOthers(s, t, e, 0);
  }

  lemma CountedReceived(s: State, msg: Message)
    requires AllCounted(s)
    ensures AllCounted(Received(s, msg))
  {
    var t := Received(s, msg);
    assert t.trace == s.trace + [Got(msg)] && t.objects == s.objects;
    assert forall k: nat :: Object(t, k) == Object(s, k);
    CountedQuiet(s, t, Got(msg));
  }

  lemma CountedReply(s: State, ok: bool, next: Loop, cmd: byte, sid: uint32)
    requires AllCounted(s)
    ensures AllCounted(Reply(s, ok, next, cmd, sid))
  {
    var t := Reply(s, ok, next, cmd, sid);
    assert forall k: nat :: Object(t, k) == Object(s, k);
    if ok {
      CountedQuiet(s, t, Sent(cmd, sid, TheSession));
    } else {
      CountedSame(s, t);
    }
  }

  lemma CountedSame(s: State, t: State)
    requires AllCounted(s) && t.trace == s.trace && t.objects == s.objects
    ensures AllCounted(t)
  {
    forall k: nat ensures Counted(Object(t, k), t.trace, k) {
      assert Counted(Object(s, k), s.trace, k);
    }
  }

  lemma CountedCloseLocally(s: State, h: nat)
    requires AllCounted(s)
    ensures AllCounted(CloseLocally(s, h))
  {
    var t := CloseLocally(s, h);
    if h < |s.objects| && s.objects[h].cause == Alive {
      assert Counted(Object(s, h), s.trace, h);
      CountAppend(s.trace, Died(h, true), h);
      CountedOthers(s, t, Died(h, true), h);
    }
  }

  lemma CountedAccepted(s: State, sid: uint32)
    requires AllCounted(s)
    ensures AllCounted(Accepted(s, sid))
  {
    var t, h := Accepted(s, sid), |s.objects|;
    if t.objects == s.objects {
      CountedSame(s, t);
    } else {
      assert Counted(Object(s, h), s.trace, h);
      CountAppend(s.trace, Registered(h, sid), h);
      CountedOthers(s, t, Registered(h, sid), h);
    }
  }

  lemma CountedLooped(s: State, ok: bool)
    requires AllCounted(s)
    ensures AllCounted(Looped(s, ok))
  {
    match s.loop
    case Accepting(sid) => CountedAccepted(s, sid);
    case Refusing(sid) => CountedReply(s, ok, Reading, if s.peerVersion >= 2 then SYNACK else FIN, sid);
    case ClosingLocally(h) => CountedSame(s, s.(loop := Reading)); CountedCloseLocally(s.(loop := Reading), h);
    case Greeting(v, stale) =>
      if stale { CountedReply(s, ok, Greeting(v, false), UPDATE_PADDING, 0); } else { CountedSame(s, Looped(s, ok)); }
    case Hello => CountedReply(s, ok, Reading, SERVER_SETTINGS, 0);
    case Alerting => CountedReply(s, ok, Stopped, ALERT, 0);
    case Answering(sid) => CountedReply(s, ok, Reading, HEART_RESPONSE, sid);
    case Reading =>
    case Stopped =>
  }

  /** A handler's step touches only its own stream, whose id it keeps. */
  lemma HandledOwn(s: State, e: Event, h: nat)
    requires h < |s.objects|
    ensures var t := Handled(s, e, h);
            && |t.objects| == |s.objects| && t.objects == s.objects[h := t.objects[h]]
            && t.objects[h].sid == s.objects[h].sid
            && (t.objects[h].cause == Alive ==> s.objects[h].cause == Alive)
            && t.loop == s.loop
            && (t.streams == s.streams || (e.CloseDelete? && t.streams == s.streams - {s.objects[h].sid}))
  {
  }

  lemma OnlyOne(s: seq<StreamState>, t: seq<StreamState>, h: nat)
    requires h < |s| == |t| && t == s[h := t[h]] && t[h].sid == s[h].sid
    ensures forall k :: 0 <= k < |s| ==> t[k].sid == s[k].sid && (k != h ==> t[k] == s[k])
  {
  }

  /** A handler's step touches its own stream and adds at most one entry, about that stream. */
  lemma HandledLocally(s: State, e: Event, h: nat) returns (added: seq<Entry>)
    requires h < |s.objects|
    ensures var t := Handled(s, e, h);
            && |t.objects| == |s.objects| && t.trace == s.trace + added && |added| <= 1
            && (forall k: nat | k != h :: Object(t, k) == Object(s, k))
            && (added != [] ==> forall k: nat :: Concerns(added[0], k) ==> k == h)
            && t.loop == s.loop && t.objects[h].sid == s.objects[h].sid
            && (t.objects[h].cause == Alive ==> s.objects[h].cause == Alive)
            && (forall k :: 0 <= k < |s.objects| ==> t.objects[k].sid == s.objects[k].sid)
            && (t.streams == s.streams || (e.CloseDelete? && t.streams == s.streams - {s.objects[h].sid}))
  {
    HandledOwn(s, e, h);
    OnlyOne(s.objects, Handled(s, e, h).objects, h);
    added := HandledAdds(s, e, h);
  }

  lemma HandledAdds(s: State, e: Event, h: nat) returns (added: seq<Entry>)
    requires h < |s.objects|
    ensures Handled(s, e, h).trace == s.trace + added && |added| <= 1
    ensures added != [] ==> forall k: nat :: Concerns(added[0], k) ==> k == h
  {
    var o := s.objects[h];
    added := [];
    match e
    case ReportWrite(_, wanted, ok) =>
      if o.reporter == Reporting && wanted && s.peerVersion >= 2 && ok { added := [Sent(SYNACK, o.sid, Stream(h))]; }
    case CloseStream(_) => if o.cause == Alive { added := [Died(h, false)]; }
    case CloseWrite(_, ok) => if o.closer == Writing && ok { added := [Sent(FIN, o.sid, Stream(h))]; }
    case _ =>
  }

  lemma CountedSynack(o: StreamState, t: seq<Entry>, h: nat)
    requires Counted(o, t, h) && o.reporter == Reporting
    ensures Counted(o.(reporter := Reported), t + [Sent(SYNACK, o.sid, Stream(h))], h)
  {
    CountAppend(t, Sent(SYNACK, o.sid, Stream(h)), h);
  }

  lemma CountedDied(o: StreamState, t: seq<Entry>, h: nat)
    requires Counted(o, t, h) && o.cause == Alive
    ensures Counted(o.(cause := ByHandler, closer := Checking), t + [Died(h, false)], h)
  {
    CountAppend(t, Died(h, false), h);
  }

  lemma CountedFin(o: StreamState, t: seq<Entry>, h: nat)
    requires Counted(o, t, h) && o.closer == Writing
    ensures Counted(o.(closer := Deleting), t + [Sent(FIN, o.sid, Stream(h))], h)
  {
    CountAppend(t, Sent(FIN, o.sid, Stream(h)), h);
  }

  lemma CountedOwn(s: State, e: Event, h: nat)
    requires h < |s.objects| && Counted(s.objects[h], s.trace, h)
    ensures h < |Handled(s, e, h).objects|
    ensures Counted(Handled(s, e, h).objects[h], Handled(s, e, h).trace, h)
  {
    var o := s.objects[h];
    match e
    case ReportWrite(_, wanted, ok) => if o.reporter == Reporting { CountedSynack(o, s.trace, h); }
    case CloseStream(_) => if o.cause == Alive { CountedDied(o, s.trace, h); }
    case CloseWrite(_, ok) => if o.closer == Writing { CountedFin(o, s.trace, h); }
    case _ =>
  }

  lemma CountedHandled(s: State, e: Event, h: nat)
    requires AllCounted(s) && h < |s.objects|
    ensures AllCounted(Handled(s, e, h))
  {
    var t := Handled(s, e, h);
    assert Counted(Object(s, h), s.trace, h);
    var added := HandledLocally(s, e, h);
    CountedOwn(s, e, h);
    if added == [] {
      assert s.trace + added == s.trace;
      forall k: nat ensures Counted(Object(t, k), t.trace, k) {
        assert Counted(Object(s, k), s.trace, k);
      }
    } else {
      CountedOthers(s, t, added[0], h);
    }
  }

  // LiveReachable

  /** A step keeps reachability if it keeps the ids of the streams, revives none, and takes
      only dead streams and their namesakes out of the map. */
  lemma ReachableKept(s: State, t: State)
    requires LiveReachable(s)
    requires |s.objects| <= |t.objects|
    requires forall h :: 0 <= h < |s.objects| ==>
                           && t.objects[h].sid == s.objects[h].sid
                           && (t.objects[h].cause == Alive ==>
                                 && s.objects[h].cause == Alive
                                 && (Listed(s, h) ==> Listed(t, h) || t.loop == ClosingLocally(h) || Namesake(s, h))
                                 && (s.loop == ClosingLocally(h) ==> t.loop == ClosingLocally(h)))
    requires forall h :: |s.objects| <= h < |t.objects| ==> Listed(t, h)
    ensures LiveReachable(t)
  {
    forall h: nat | h < |t.objects| && t.objects[h].cause == Alive ensures Reachable(t, h) {
      if h < |s.objects| {
        assert Reachable(s, h);
        if Namesake(s, h) {
          var k :| 0 <= k < |s.objects| && k != h && s.objects[k].sid == s.objects[h].sid;
          assert t.objects[k].sid == t.objects[h].sid;
        }
      }
    }
  }

  lemma ReachableHandled(s: State, e: Event, h: nat)
    requires LiveReachable(s) && AllCounted(s) && h < |s.objects|
    ensures LiveReachable(Handled(s, e, h))
  {
    var t := Handled(s, e, h);
    assert Counted(Object(s, h), s.trace, h);
    var added := HandledLocally(s, e, h);
    assert forall k: nat | k < |s.objects| && k != h :: Object(t, k) == t.objects[k] == s.objects[k];
    if t.streams == s.streams {
      ReachableKept(s, t);
    } else {
      forall k | 0 <= k < |s.objects| && t.objects[k].cause == Alive && Listed(s, k)
        ensures Listed(t, k) || Namesake(s, k)
      {
        if s.objects[k].sid == s.objects[h].sid { assert k != h; assert Namesake(s, k); }
      }
      ReachableKept(s, t);
    }
  }

  lemma ReachableReceived(s: State, msg: Message)
    requires LiveReachable(s) && Linked(s) && s.loop == Reading
    ensures LiveReachable(Received(s, msg))
  {
    ReachableKept(s, Received(s, msg));
  }

  lemma ReachableCloseLocally(s: State, h: nat)
    requires LiveReachable(s) || (s.loop == Reading && LiveReachable(s.(loop := ClosingLocally(h))))
    ensures LiveReachable(CloseLocally(s, h))
  {
    var t := CloseLocally(s, h);
    forall k: nat | k < |t.objects| && t.objects[k].cause == Alive ensures Reachable(t, k) {
      var s' := if LiveReachable(s) then s else s.(loop := ClosingLocally(h));
      assert k != h && Reachable(s', k);
      if k' :| 0 <= k' < |s.objects| && k' != k && s.objects[k'].sid == s.objects[k].sid {
        assert t.objects[k'].sid == t.objects[k].sid;
      }
    }
  }

  lemma LoopedOutside(s: State, ok: bool)
    requires !s.loop.Accepting? && !s.loop.ClosingLocally?
    ensures Looped(s, ok).objects == s.objects && Looped(s, ok).streams == s.streams
  {
  }

  lemma ReachableLooped(s: State, ok: bool)
    requires LiveReachable(s)
    ensures LiveReachable(Looped(s, ok))
  {
    if s.loop.ClosingLocally? {
      assert s.(loop := Reading).(loop := s.loop) == s;
      ReachableCloseLocally(s.(loop := Reading), s.loop.handle);
    } else if s.loop.Accepting? {
      ReachableAccepted(s, s.loop.sid);
    } else {
      LoopedOutside(s, ok);
      ReachableKept(s, Looped(s, ok));
    }
  }

  lemma ReachableAccepted(s: State, sid: uint32)
    requires LiveReachable(s) && s.loop == Accepting(sid)
    ensures LiveReachable(Accepted(s, sid))
  {
    ReachableKept(s, Accepted(s, sid));
  }

  // ---------- the theorems ----------

  lemma InvStep(s: State, e: Event)
    requires Inv(s)
    ensures Inv(Apply(s, e))
  {
    match e
    case Receive(msg) =>
      if s.loop == Reading && !(s.sweeping && msg.Fin?) {
        LinkedReceived(s, msg); GreetedReceived(s, msg); CountedReceived(s, msg); ReachableReceived(s, msg);
      }
    case LoopStep(ok) =>
      LinkedLooped(s, ok); GreetedLooped(s, ok); CountedLooped(s, ok); ReachableLooped(s, ok);
    case SweepOne(sid) =>
      if s.sweeping && sid in s.streams {
        var h := s.streams[sid];
        GreetedCloseLocally(s, h); CountedCloseLocally(s, h); ReachableCloseLocally(s, h);
      }
    case SweepEnd => InvOutside(s, Apply(s, e));
    case SweepStart => InvOutside(s, Apply(s, e));
    case CloseSession => InvOutside(s, Apply(s, e));
    case _ =>
      if e.handle < |s.objects| {
        var h := e.handle;
        LinkedHandled(s, e, h); GreetedHandled(s, e, h); CountedHandled(s, e, h); ReachableHandled(s, e, h);
      }
  }

  lemma InvOutside(s: State, t: State)
    requires Inv(s)
    requires t == s.(closed := t.closed, sweeping := t.sweeping, streams := t.streams)
    requires t.streams == s.streams || (t.streams == map[] && AllDead(s))
    ensures Inv(t)
  {
    CountedSame(s, t);
    ReachableKept(s, t);
  }

  lemma {:induction false} InvRun(es: seq<Event>)
    ensures Inv(Run(es))
  {
    if es == [] {
      forall h: nat ensures Counted(Object(START, h), [], h) {
      }
    } else {
      InvRun(es[..|es| - 1]);
      InvStep(Run(es[..|es| - 1]), es[|es| - 1]);
    }
  }

  lemma CountedRun(es: seq<Event>, h: nat)
    ensures Counted(Object(Run(es), h), Run(es).trace, h)
  {
    InvRun(es);
  }

  /** Server session safety, for every frame sequence and every interleaving: the stream cap
      is never exceeded; nothing is registered before settings; SYNACK and server settings
      are only sent to a peer of version 2 or later; a stream gets at most one SYNACK and at
      most one FIN, dies once, and gets no FIN if its first close was a local one. */
  lemma SessionIsSafe(es: seq<Event>, h: nat)
    ensures var s := Run(es);
            && |s.streams| <= MAX_STREAMS
            && Ordered(s.trace)
            && Count(s.trace, SYNACK, h) <= 1 && Count(s.trace, FIN, h) <= 1
            && Deaths(s.trace, h, true) + Deaths(s.trace, h, false) <= 1
            && (Deaths(s.trace, h, true) > 0 ==> Count(s.trace, FIN, h) == 0)
            && (Count(s.trace, FIN, h) > 0 ==> Deaths(s.trace, h, false) == 1)
  {
    InvRun(es);
    var s := Run(es);
    assert Counted(Object(s, h), s.trace, h);
  }

  /** Data for a live stream finds it, except while the peer's FIN is being handled, and
      unless the peer has used its id for another stream. */
  lemma LiveStreamIsFound(es: seq<Event>, h: nat)
    requires h < |Run(es).objects| && Run(es).objects[h].cause == Alive
    ensures Reachable(Run(es), h)
  {
    InvRun(es);
  }

  // ---------- exactly when a live stream is lost ----------

  /** Every live stream is registered, or about to be closed because of the peer's FIN. */
  ghost predicate AllFound(s: State) {
    forall h: nat | h < |s.objects| && s.objects[h].cause == Alive :: Listed(s, h) || s.loop == ClosingLocally(h)
  }

  /** A closing stream deletes its id from the map while the id belongs to a live stream that
      is not itself. */
  predicate StaleDelete(s: State, e: Event) {
    && e.CloseDelete? && e.handle < |s.objects| && s.objects[e.handle].closer == Deleting && !s.sweeping
    && Orphans(s, s.objects[e.handle].sid)
  }

  predicate Orphans(s: State, sid: uint32) {
    && sid in s.streams && s.streams[sid] < |s.objects|
    && s.objects[s.streams[sid]].cause == Alive && s.loop != ClosingLocally(s.streams[sid])
  }

  lemma FoundKept(s: State, t: State)
    requires AllFound(s) && |s.objects| <= |t.objects|
    requires forall h :: 0 <= h < |s.objects| && t.objects[h].cause == Alive ==>
                           && s.objects[h].cause == Alive
                           && (Listed(s, h) ==> Listed(t, h) || t.loop == ClosingLocally(h))
                           && (s.loop == ClosingLocally(h) ==> t.loop == ClosingLocally(h))
    requires forall h :: |s.objects| <= h < |t.objects| ==> Listed(t, h)
    ensures AllFound(t)
  {
  }

  lemma FoundCloseLocally(s: State, h: nat)
    requires AllFound(s) || (s.loop == Reading && AllFound(s.(loop := ClosingLocally(h))))
    ensures AllFound(CloseLocally(s, h))
  {
    var t := CloseLocally(s, h);
    forall k: nat | k < |t.objects| && t.objects[k].cause == Alive ensures Listed(t, k) || t.loop == ClosingLocally(k) {
      var s' := if AllFound(s) then s else s.(loop := ClosingLocally(h));
      assert k != h && (Listed(s', k) || s'.loop == ClosingLocally(k));
    }
  }

  lemma FoundReceived(s: State, msg: Message)
    requires AllFound(s) && Linked(s) && s.loop == Reading
    ensures AllFound(Received(s, msg))
  {
    FoundKept(s, Received(s, msg));
  }

  lemma FoundAccepted(s: State, sid: uint32)
    requires AllFound(s) && s.loop == Accepting(sid)
    ensures AllFound(Accepted(s, sid))
  {
    FoundKept(s, Accepted(s, sid));
  }

  lemma FoundLooped(s: State, ok: bool)
    requires AllFound(s)
    ensures AllFound(Looped(s, ok))
  {
    if s.loop.ClosingLocally? {
      assert s.(loop := Reading).(loop := s.loop) == s;
      FoundCloseLocally(s.(loop := Reading), s.loop.handle);
    } else if s.loop.Accepting? {
      FoundAccepted(s, s.loop.sid);
    } else {
      LoopedOutside(s, ok);
      FoundKept(s, Looped(s, ok));
    }
  }

  lemma FoundHandled(s: State, e: Event, h: nat)
    requires AllFound(s) && h < |s.objects| && !e.CloseDelete?
    ensures AllFound(Handled(s, e, h))
  {
    HandledOwn(s, e, h);
    OnlyOne(s.objects, Handled(s, e, h).objects, h);
    FoundKept(s, Handled(s, e, h));
  }

  lemma FoundUnlisted(s: State, h: nat)
    requires AllFound(s) && Linked(s) && h < |s.objects|
    ensures AllFound(Unlisted(s, h)) <==> !Orphans(s, s.objects[h].sid)
  {
    var t, sid := Unlisted(s, h), s.objects[h].sid;
    if Orphans(s, sid) {
      assert !Listed(t, s.streams[sid]);
    } else {
      FoundKept(s, t);
    }
  }

  /** A step leaves all live streams found exactly when it is not a stale deletion. */
  lemma FoundUnlessStale(s: State, e: Event)
    requires AllFound(s) && Inv(s)
    ensures AllFound(Apply(s, e)) <==> !StaleDelete(s, e)
  {
    match e
    case Receive(msg) => if s.loop == Reading && !(s.sweeping && msg.Fin?) { FoundReceived(s, msg); }
    case LoopStep(ok) => FoundLooped(s, ok);
    case SweepOne(sid) => if s.sweeping && sid in s.streams { FoundCloseLocally(s, s.streams[sid]); }
    case SweepEnd => FoundKept(s, Apply(s, e));
    case SweepStart => FoundKept(s, Apply(s, e));
    case CloseSession => FoundKept(s, Apply(s, e));
    case CloseDelete(h) => if h < |s.objects| { FoundUnlisted(s, h); }
    case _ => if e.handle < |s.objects| { FoundHandled(s, e, e.handle); }
  }

  ghost predicate EverStale(es: seq<Event>) {
    es != [] && (EverStale(es[..|es| - 1]) || StaleDelete(Run(es[..|es| - 1]), es[|es| - 1]))
  }

  /** All live streams are found after every step of the run. */
  ghost predicate AlwaysFound(es: seq<Event>) {
    AllFound(Run(es)) && (es != [] ==> AlwaysFound(es[..|es| - 1]))
  }

  /** Every live stream is found at all times exactly when there is no stale deletion. */
  lemma {:induction false} FoundRun(es: seq<Event>)
    ensures AlwaysFound(es) <==> !EverStale(es)
  {
    if es == [] {
    } else {
      var es' := es[..|es| - 1];
      FoundRun(es');
      InvRun(es');
      if AlwaysFound(es') {
        FoundUnlessStale(Run(es'), es[|es| - 1]);
      }
    }
  }

  /** A live stream that nothing will reach: open session, idle loop, empty map. */
  ghost predicate Lost(s: State, h: nat) {
    h < |s.objects| && s.objects[h].cause == Alive && s.streams == map[] && s.loop == Reading && !s.closed
  }

  predicate Idle(s: State) {
    s.settings && s.loop == Reading && !s.closed && !s.sweeping
  }

  lemma LoseStepOne(s: State)
    requires s == START
    ensures var t := Apply(Apply(Apply(Apply(s, Receive(Settings(NoVersion, false))), LoopStep(true)), Receive(Syn(1))),
                           LoopStep(true));
            Idle(t) && t.objects == [StreamState(1, Alive, NotClosing, Unreported)] && t.streams == map[1 := 0]
  {
  }

  lemma LoseStepTwo(s: State)
    requires Idle(s) && s.objects == [StreamState(1, Alive, NotClosing, Unreported)] && s.streams == map[1 := 0]
    ensures var t := Apply(Apply(Apply(Apply(s, CloseStream(0)), CloseCheck(0)), CloseWrite(0, true)), Receive(Fin(1)));
            && Idle(t.(loop := Reading)) && t.loop == ClosingLocally(0)
            && t.objects == [StreamState(1, ByHandler, Deleting, Unreported)] && t.streams == map[]
  {
  }

  lemma LoseStepThree(s: State)
    requires Idle(s.(loop := Reading)) && s.loop == ClosingLocally(0)
    requires s.objects == [StreamState(1, ByHandler, Deleting, Unreported)] && s.streams == map[]
    ensures Lost(Apply(Apply(Apply(Apply(s, LoopStep(true)), Receive(Syn(1))), LoopStep(true)), CloseDelete(0)), 1)
  {
  }

  /** The exception is real: closing a stream deletes its id from the map, not the stream,
      so a SYN that reuses the id meanwhile loses the new stream. */
  lemma ReusedIdLosesStream()
    ensures exists es :: Lost(Run(es), 1)
  {
    LoseStepOne(START);
    var s4, es4 := RunFour([], Receive(Settings(NoVersion, false)), LoopStep(true), Receive(Syn(1)), LoopStep(true));
    LoseStepTwo(s4);
    var s8, es8 := RunFour(es4, CloseStream(0), CloseCheck(0), CloseWrite(0, true), Receive(Fin(1)));
    LoseStepThree(s8);
    var s12, es12 := RunFour(es8, LoopStep(true), Receive(Syn(1)), LoopStep(true), CloseDelete(0));
  }

  lemma RunOne(es: seq<Event>, e: Event)
    ensures Run(es + [e]) == Apply(Run(es), e)
  {
    assert (es + [e])[..|es|] == es;
  }

  lemma RunFour(es: seq<Event>, a: Event, b: Event, c: Event, d: Event) returns (s: State, es': seq<Event>)
    ensures s == Apply(Apply(Apply(Apply(Run(es), a), b), c), d) == Run(es') && es' == es + [a] + [b] + [c] + [d]
  {
    RunOne(es, a);
    RunOne(es + [a], b);
    RunOne(es + [a] + [b], c);
    RunOne(es + [a] + [b] + [c], d);
    es' := es + [a] + [b] + [c] + [d];
    s := Run(es');
  }

  // ---------- the peer's version ----------

  /** What the session makes of the last version of at least 2 that the peer has sent: its low
      32 bits, or 0 if there was none. */
  function LastVersion(trace: seq<Entry>): uint32 {
    if trace == [] then 0
    else
      var e := trace[|trace| - 1];
      if IsV2(e) then e.msg.version.v % 0x1_0000_0000 else LastVersion(trace[..|trace| - 1])
  }

  lemma LastVersionAppend(t: seq<Entry>, e: Entry)
    ensures LastVersion(t + [e]) == if IsV2(e) then e.msg.version.v % 0x1_0000_0000 else LastVersion(t)
  {
    assert (t + [e])[..|t|] == t;
  }

  /** The version stored is the last one sent, or is about to become it; a receive loop that
      stopped may have left it behind. */
  ghost predicate Current(version: uint32, loop: Loop, trace: seq<Entry>) {
    match loop
    case Stopped => true
    case Greeting(v, _) => LastVersion(trace) == if v.Version? && v.v >= 2 then v.v % 0x1_0000_0000 else version
    case _ => LastVersion(trace) == version
  }

  lemma CurrentReceived(s: State, msg: Message)
    requires Current(s.peerVersion, s.loop, s.trace) && s.loop == Reading
    ensures var t := Received(s, msg); Current(t.peerVersion, t.loop, t.trace)
  {
    LastVersionAppend(s.trace, Got(msg));
  }

  lemma CurrentReply(s: State, ok: bool, next: Loop, cmd: byte, sid: uint32)
    requires Current(s.peerVersion, next, s.trace)
    ensures var t := Reply(s, ok, next, cmd, sid); Current(t.peerVersion, t.loop, t.trace)
  {
    LastVersionAppend(s.trace, Sent(cmd, sid, TheSession));
  }

  lemma CurrentLooped(s: State, ok: bool)
    requires Current(s.peerVersion, s.loop, s.trace)
    ensures var t := Looped(s, ok); Current(t.peerVersion, t.loop, t.trace)
  {
    match s.loop
    case Accepting(sid) => LastVersionAppend(s.trace, Registered(|s.objects|, sid));
    case Refusing(sid) => CurrentReply(s, ok, Reading, if s.peerVersion >= 2 then SYNACK else FIN, sid);
    case ClosingLocally(h) => LastVersionAppend(s.trace, Died(h, true));
    case Greeting(v, stale) => if stale { CurrentReply(s, ok, Greeting(v, false), UPDATE_PADDING, 0); }
    case Hello => CurrentReply(s, ok, Reading, SERVER_SETTINGS, 0);
    case Alerting => CurrentReply(s, ok, Stopped, ALERT, 0);
    case Answering(sid) => CurrentReply(s, ok, Reading, HEART_RESPONSE, sid);
    case Reading =>
    case Stopped =>
  }

  lemma CurrentHandled(s: State, e: Event, h: nat)
    requires Current(s.peerVersion, s.loop, s.trace) && h < |s.objects|
    ensures var t := Handled(s, e, h); Current(t.peerVersion, t.loop, t.trace)
  {
    HandledOwn(s, e, h);
    var o := s.objects[h];
    LastVersionAppend(s.trace, Sent(SYNACK, o.sid, Stream(h)));
    LastVersionAppend(s.trace, Sent(FIN, o.sid, Stream(h)));
    LastVersionAppend(s.trace, Died(h, false));
  }

  lemma CurrentStep(s: State, e: Event)
    requires Current(s.peerVersion, s.loop, s.trace)
    ensures var t := Apply(s, e); Current(t.peerVersion, t.loop, t.trace)
  {
    match e
    case Receive(msg) => if s.loop == Reading && !(s.sweeping && msg.Fin?) { CurrentReceived(s, msg); }
    case LoopStep(ok) => CurrentLooped(s, ok);
    case SweepOne(sid) => if sid in s.streams { LastVersionAppend(s.trace, Died(s.streams[sid], true)); }
    case SweepEnd =>
    case SweepStart =>
    case CloseSession =>
    case _ => if e.handle < |s.objects| { CurrentHandled(s, e, e.handle); }
  }

  lemma {:induction false} CurrentRun(es: seq<Event>)
    ensures var s := Run(es); Current(s.peerVersion, s.loop, s.trace)
  {
    if es == [] {
    } else {
      CurrentRun(es[..|es| - 1]);
      CurrentStep(Run(es[..|es| - 1]), es[|es| - 1]);
    }
  }

  lemma RunTwo(es: seq<Event>, a: Event, b: Event)
    ensures Run(es + [a, b]) == Apply(Apply(Run(es), a), b)
  {
    var es', s := es + [a], Run(es);
    assert es + [a, b] == es' + [b];
    RunOne(es', b);
    assert Run(es') == Apply(s, a) by { RunOne(es, a); }
  }

  /** In every run, once a settings frame has been dealt with: the handshake report of a stream
      sends its SYNACK exactly when the low 32 bits of the last version sent are at least 2. */
  lemma SynackExactlyWhenVersionFits(es: seq<Event>, h: nat)
    requires h < |Run(es).objects| && Run(es).objects[h].reporter == Unreported
    requires !Run(es).loop.Greeting? && !Run(es).loop.Stopped?
    ensures var s, t := Run(es), Run(es + [Report(h), ReportWrite(h, true, true)]);
            && Count(t.trace, SYNACK, h) == (if LastVersion(s.trace) >= 2 then 1 else 0)
            && t.trace == s.trace +
               if LastVersion(s.trace) >= 2 then [Sent(SYNACK, s.objects[h].sid, Stream(h))] else []
  {
    var s := Run(es);
    CurrentRun(es);
    CountedRun(es, h);
    RunTwo(es, Report(h), ReportWrite(h, true, true));
    CountAppend(s.trace, Sent(SYNACK, s.objects[h].sid, Stream(h)), h);
  }

  const WRAPPED: int := 0x1_0000_0001

  lemma WrappedGreeting()
    ensures var s := Apply(START, Receive(Settings(Version(WRAPPED), false)));
            var t := Apply(Apply(s, LoopStep(true)), LoopStep(true));
            && Idle(t) && t.peerVersion == 1 && t.streams == map[] && t.objects == []
            && Sent(SERVER_SETTINGS, 0, TheSession) in t.trace && LastVersion(t.trace) == 1
  {
    var s := Apply(START, Receive(Settings(Version(WRAPPED), false)));
    LastVersionAppend([], Got(Settings(Version(WRAPPED), false)));
    assert s.trace == [] + [Got(Settings(Version(WRAPPED), false))];
    var t := Apply(Apply(s, LoopStep(true)), LoopStep(true));
    assert t.trace == s.trace + [Sent(SERVER_SETTINGS, 0, TheSession)];
    LastVersionAppend(s.trace, Sent(SERVER_SETTINGS, 0, TheSession));
  }

  /** A peer that says version 2^32 + 1 is sent server settings, and then treated as one of
      version 1: its streams get no SYNACK. */
  lemma WrappedVersionGetsNoSynack()
    ensures exists es :: WrappedVersion(Run(es))
                         && Count(Run(es + [Report(0), ReportWrite(0, true, true)]).trace, SYNACK, 0) == 0
  {
    WrappedGreeting();
    var es0 := [Receive(Settings(Version(WRAPPED), false))];
    RunOne([], es0[0]);
    assert [] + es0 == es0;
    RunTwo(es0, LoopStep(true), LoopStep(true));
    var es := es0 + [LoopStep(true), LoopStep(true)];
    SynOpensStream(es, 1);
    var es' := es + [Receive(Syn(1)), LoopStep(true)];
    SynackExactlyWhenVersionFits(es', 0);
    assert WrappedVersion(Run(es'));
  }

  /** The peer has sent version 2^32 + 1 and got server settings; a stream is open. */
  ghost predicate WrappedVersion(s: State) {
    && LastVersion(s.trace) == WRAPPED % 0x1_0000_0000 && Sent(SERVER_SETTINGS, 0, TheSession) in s.trace
    && Listed(s, 0) && s.objects[0].reporter == Unreported && !s.closed
  }

  // ---------- progress ----------

  lemma SynRegisters(s: State, sid: uint32)
    requires Idle(s) && sid !in s.streams && |s.streams| < MAX_STREAMS
    ensures var t := Looped(Received(s, Syn(sid)), true);
            && t.objects == s.objects + [StreamState(sid, Alive, NotClosing, Unreported)]
            && t.streams == s.streams[sid := |s.objects|] && Idle(t) && t.peerVersion == s.peerVersion
            && t.trace == s.trace + [Got(Syn(sid))] + [Registered(|s.objects|, sid)]
  {
  }

  /** In every run, a SYN with a new id below the cap opens a stream that is found under that
      id and of which nothing has been sent yet. */
  lemma SynOpensStream(es: seq<Event>, sid: uint32)
    requires Idle(Run(es)) && sid !in Run(es).streams && |Run(es).streams| < MAX_STREAMS
    ensures var s, t, h := Run(es), Run(es + [Receive(Syn(sid)), LoopStep(true)]), |Run(es).objects|;
            && t.objects == s.objects + [StreamState(sid, Alive, NotClosing, Unreported)] && Listed(t, h) && Idle(t)
            && Count(t.trace, SYNACK, h) == Count(t.trace, FIN, h) == 0
            && LastVersion(t.trace) == LastVersion(s.trace) && s.trace <= t.trace
  {
    var s, h := Run(es), |Run(es).objects|;
    RunTwo(es, Receive(Syn(sid)), LoopStep(true));
    SynRegisters(s, sid);
    CountedRun(es, h);
    CountAppend(s.trace, Got(Syn(sid)), h);
    CountAppend(s.trace + [Got(Syn(sid))], Registered(h, sid), h);
    LastVersionAppend(s.trace, Got(Syn(sid)));
    LastVersionAppend(s.trace + [Got(Syn(sid))], Registered(h, sid));
  }

  lemma CloseReachesWrite(s: State, h: nat)
    requires h < |s.objects| && s.objects[h].cause == Alive && !s.closed
    ensures var t := Handled(Handled(s, CloseStream(h), h), CloseCheck(h), h);
            && t == s.(objects := t.objects, trace := t.trace)
            && t.objects == s.objects[h := s.objects[h].(cause := ByHandler, closer := Writing)]
            && t.trace == s.trace + [Died(h, false)] && Count(t.trace, FIN, h) == Count(s.trace, FIN, h)
  {
    CountAppend(s.trace, Died(h, false), h);
  }

  lemma CloseSendsFin(s: State, h: nat)
    requires h < |s.objects| && s.objects[h].closer == Writing && !s.sweeping
    ensures var t := Handled(Handled(s, CloseWrite(h, true), h), CloseDelete(h), h);
            && Count(t.trace, FIN, h) == Count(s.trace, FIN, h) + 1
            && t.streams == s.streams - {s.objects[h].sid}
            && t.trace == s.trace + [Sent(FIN, s.objects[h].sid, Stream(h))]
  {
    CountAppend(s.trace, Sent(FIN, s.objects[h].sid, Stream(h)), h);
  }

  lemma CloseCompletes(s: State, h: nat)
    requires h < |s.objects| && s.objects[h].cause == Alive && !s.closed && !s.sweeping && Count(s.trace, FIN, h) == 0
    ensures var t := Apply(Apply(Apply(Apply(s, CloseStream(h)), CloseCheck(h)), CloseWrite(h, true)), CloseDelete(h));
            Told(t, h, s.objects[h].sid)
  {
    CloseReachesWrite(s, h);
    CloseSendsFin(Handled(Handled(s, CloseStream(h), h), CloseCheck(h), h), h);
  }

  /** In every run, closing a live stream on an open session, with nothing failing, sends its
      one and only FIN and takes its id off the map. */
  lemma CloseTellsPeerOnce(es: seq<Event>, h: nat)
    requires h < |Run(es).objects| && Run(es).objects[h].cause == Alive && !Run(es).closed && !Run(es).sweeping
    ensures exists es' :: es <= es' && Told(Run(es'), h, Run(es).objects[h].sid)
  {
    CountedRun(es, h);
    var t, es' := RunFour(es, CloseStream(h), CloseCheck(h), CloseWrite(h, true), CloseDelete(h));
    CloseCompletes(Run(es), h);
    assert Told(t, h, Run(es).objects[h].sid);
  }

  /** The last thing sent is the FIN of stream `h`, its only one, under its id. */
  predicate Told(s: State, h: nat, sid: uint32) {
    && s.trace != [] && s.trace[|s.trace| - 1] == Sent(FIN, sid, Stream(h))
    && Count(s.trace, FIN, h) == 1 && sid !in s.streams
  }

  // ---------- ids on the wire ----------

  predicate OwnId(objects: seq<StreamState>, e: Entry) {
    e.Sent? && e.owner.Stream? ==> e.owner.handle < |objects| && objects[e.owner.handle].sid == e.sid
  }

  ghost predicate OwnIds(objects: seq<StreamState>, trace: seq<Entry>) {
    forall i :: 0 <= i < |trace| ==> OwnId(objects, trace[i])
  }

  lemma OwnIdsNext(s: State, t: State, added: seq<Entry>)
    requires OwnIds(s.objects, s.trace) && t.trace == s.trace + added && |s.objects| <= |t.objects|
    requires forall h :: 0 <= h < |s.objects| ==> t.objects[h].sid == s.objects[h].sid
    requires forall i :: 0 <= i < |added| ==> OwnId(t.objects, added[i])
    ensures OwnIds(t.objects, t.trace)
  {
    forall i | 0 <= i < |t.trace| ensures OwnId(t.objects, t.trace[i]) {
      if i < |s.trace| { assert OwnId(s.objects, s.trace[i]); }
    }
  }

  lemma OwnIdsHandled(s: State, e: Event, h: nat)
    requires OwnIds(s.objects, s.trace) && h < |s.objects|
    ensures OwnIds(Handled(s, e, h).objects, Handled(s, e, h).trace)
  {
    HandledOwn(s, e, h);
    var t, o := Handled(s, e, h), s.objects[h];
    OnlyOne(s.objects, t.objects, h);
    var added :=
      if e.ReportWrite? && t.trace != s.trace then [Sent(SYNACK, o.sid, Stream(h))]
      else if e.CloseStream? && t.trace != s.trace then [Died(h, false)]
      else if e.CloseWrite? && t.trace != s.trace then [Sent(FIN, o.sid, Stream(h))]
      else [];
    OwnIdsNext(s, t, added);
  }

  /** Entries that are neither about a stream's frames nor frames taken off the wire. */
  predicate Neutral(added: seq<Entry>) {
    forall i :: 0 <= i < |added| ==> !added[i].Got? && !(added[i].Sent? && added[i].owner.Stream?)
  }

  predicate SameIds(s: State, t: State) {
    |s.objects| <= |t.objects| && forall h :: 0 <= h < |s.objects| ==> t.objects[h].sid == s.objects[h].sid
  }

  lemma CloseLocallyAdds(s: State, h: nat) returns (added: seq<Entry>)
    ensures var t := CloseLocally(s, h);
            t.trace == s.trace + added && Neutral(added) && SameIds(s, t) && t.settings == s.settings
  {
    added := if h < |s.objects| && s.objects[h].cause == Alive then [Died(h, true)] else [];
  }

  lemma ReplyAdds(s: State, ok: bool, next: Loop, cmd: byte, sid: uint32) returns (added: seq<Entry>)
    ensures var t := Reply(s, ok, next, cmd, sid);
            t.trace == s.trace + added && Neutral(added) && SameIds(s, t) && t.settings == s.settings
  {
    added := if ok then [Sent(cmd, sid, TheSession)] else [];
  }

  lemma AcceptedAdds(s: State, sid: uint32) returns (added: seq<Entry>)
    ensures var t := Accepted(s, sid);
            t.trace == s.trace + added && Neutral(added) && SameIds(s, t) && t.settings == s.settings
  {
    added := if sid in s.streams || |s.streams| >= MAX_STREAMS then [] else [Registered(|s.objects|, sid)];
  }

  lemma LoopedAdds(s: State, ok: bool) returns (added: seq<Entry>)
    ensures var t := Looped(s, ok);
            t.trace == s.trace + added && Neutral(added) && SameIds(s, t) && t.settings == s.settings
  {
    added := [];
    match s.loop
    case Accepting(sid) => if !s.sweeping { added := AcceptedAdds(s, sid); }
    case Refusing(sid) => added := ReplyAdds(s, ok, Reading, if s.peerVersion >= 2 then SYNACK else FIN, sid);
    case ClosingLocally(h) => added := CloseLocallyAdds(s.(loop := Reading), h);
    case Greeting(v, stale) => if stale { added := ReplyAdds(s, ok, Greeting(v, false), UPDATE_PADDING, 0); }
    case Hello => added := ReplyAdds(s, ok, Reading, SERVER_SETTINGS, 0);
    case Alerting => added := ReplyAdds(s, ok, Stopped, ALERT, 0);
    case Answering(sid) => added := ReplyAdds(s, ok, Reading, HEART_RESPONSE, sid);
    case Reading =>
    case Stopped =>
  }

  predicate OfHandler(e: Event) {
    !(e.Receive? || e.LoopStep? || e.CloseSession? || e.SweepStart? || e.SweepOne? || e.SweepEnd?)
  }

  /** Steps of the receive loop and of a closing session. */
  lemma LoopAdds(s: State, e: Event) returns (added: seq<Entry>)
    requires !OfHandler(e) && !e.Receive?
    ensures var t := Apply(s, e);
            t.trace == s.trace + added && Neutral(added) && SameIds(s, t) && t.settings == s.settings
  {
    added := [];
    if e.LoopStep? {
      added := LoopedAdds(s, e.ok);
    } else if e.SweepOne? && s.sweeping && e.sid in s.streams {
      added := CloseLocallyAdds(s, s.streams[e.sid]);
    }
  }

  lemma ReceiveAdds(s: State, msg: Message)
    ensures var t := Apply(s, Receive(msg));
            SameIds(s, t) && |t.objects| == |s.objects| && (t.trace == s.trace || t.trace == s.trace + [Got(msg)])
  {
  }

  lemma {:induction false} OwnIdsRun(es: seq<Event>)
    ensures OwnIds(Run(es).objects, Run(es).trace)
  {
    if es == [] {
    } else {
      var s, e := Run(es[..|es| - 1]), es[|es| - 1];
      OwnIdsRun(es[..|es| - 1]);
      if e.Receive? {
        ReceiveAdds(s, e.msg);
        OwnIdsNext(s, Apply(s, e), if Apply(s, e).trace == s.trace then [] else [Got(e.msg)]);
      } else if !OfHandler(e) {
        var added := LoopAdds(s, e);
        OwnIdsNext(s, Apply(s, e), added);
      } else if e.handle < |s.objects| {
        OwnIdsHandled(s, e, e.handle);
      }
    }
  }

  /** In every run, every frame sent for a stream carries that stream's id. */
  lemma FramesCarryOwnIds(es: seq<Event>, cmd: byte, sid: uint32, h: nat)
    requires Sent(cmd, sid, Stream(h)) in Run(es).trace
    ensures h < |Run(es).objects| && Run(es).objects[h].sid == sid
  {
    OwnIdsRun(es);
    var i :| 0 <= i < |Run(es).trace| && Run(es).trace[i] == Sent(cmd, sid, Stream(h));
    assert OwnId(Run(es).objects, Run(es).trace[i]);
  }

  // ---------- the dialogue ----------

  lemma SawSettingsNext(t: seq<Entry>, e: Entry)
    ensures SawSettings(t + [e]) <==> SawSettings(t) || IsSettings(e)
  {
    SawAppend(t, e);
    if SawSettings(t + [e]) && !IsSettings(e) {
      var i :| 0 <= i < |t + [e]| && IsSettings((t + [e])[i]);
      assert t[i] == (t + [e])[i];
    }
  }

  lemma {:induction false} SawSettingsAppend(t: seq<Entry>, added: seq<Entry>)
    requires forall i :: 0 <= i < |added| ==> !IsSettings(added[i])
    ensures SawSettings(t + added) <==> SawSettings(t)
    decreases |added|
  {
    if added == [] {
      assert t + added == t;
    } else {
      var n := |added| - 1;
      SawSettingsAppend(t, added[..n]);
      SawSettingsNext(t + added[..n], added[n]);
      assert t + added == t + added[..n] + [added[n]];
    }
  }

  lemma SettingsStep(s: State, e: Event)
    requires s.settings <==> SawSettings(s.trace)
    ensures Apply(s, e).settings <==> SawSettings(Apply(s, e).trace)
  {
    if e.Receive? {
      SawSettingsNext(s.trace, Got(e.msg));
    } else if !OfHandler(e) {
      var added := LoopAdds(s, e);
      SawSettingsAppend(s.trace, added);
    } else if e.handle < |s.objects| {
      SettingsHandled(s, e, e.handle);
    }
  }

  lemma SettingsHandled(s: State, e: Event, h: nat)
    requires h < |s.objects|
    ensures Handled(s, e, h).settings == s.settings
    ensures SawSettings(Handled(s, e, h).trace) <==> SawSettings(s.trace)
  {
    var o := s.objects[h];
    SawSettingsNext(s.trace, Sent(SYNACK, o.sid, Stream(h)));
    SawSettingsNext(s.trace, Sent(FIN, o.sid, Stream(h)));
    SawSettingsNext(s.trace, Died(h, false));
  }

  lemma {:induction false} SettingsRun(es: seq<Event>)
    ensures Run(es).settings <==> SawSettings(Run(es).trace)
  {
    if es == [] {
    } else {
      SettingsRun(es[..|es| - 1]);
      SettingsStep(Run(es[..|es| - 1]), es[|es| - 1]);
    }
  }

  /** What the session has to say to a frame, judged by its history: the update of a stale padding
      scheme and its own settings to a version of at least 2; an alert to a SYN before any
      settings, nothing to one for an open stream, a refusal under its own id to one over the
      cap, in the form the peer's version understands, and otherwise the registration of a
      stream; the local end of the stream that a FIN names; and an echo to a heartbeat. */
  function Answer(s: State, msg: Message): seq<Entry> {
    match msg
    case Settings(v, stale) =>
      (if stale then [Sent(UPDATE_PADDING, 0, TheSession)] else [])
      + if v.Version? && v.v >= 2 then [Sent(SERVER_SETTINGS, 0, TheSession)] else []
    case Syn(sid) =>
      if !SawSettings(s.trace) then [Sent(ALERT, 0, TheSession)]
      else if sid in s.streams then []
      else if |s.streams| < MAX_STREAMS then [Registered(|s.objects|, sid)]
      else [Sent(if LastVersion(s.trace) >= 2 then SYNACK else FIN, sid, TheSession)]
    case Fin(sid) =>
      if sid in s.streams && s.streams[sid] < |s.objects| && s.objects[s.streams[sid]].cause == Alive
      then [Died(s.streams[sid], true)] else []
    case HeartRequest(sid) => [Sent(HEART_RESPONSE, sid, TheSession)]
    case _ => []
  }

  /** The streams registered after a frame. */
  function StreamsAfter(s: State, msg: Message): map<uint32, nat> {
    match msg
    case Syn(sid) =>
      if SawSettings(s.trace) && sid !in s.streams && |s.streams| < MAX_STREAMS
      then s.streams[sid := |s.objects|] else s.streams
    case Fin(sid) => s.streams - {sid}
    case _ => s.streams
  }

  /** Frames after which the loop reads no more. */
  predicate Final(s: State, msg: Message) {
    msg.AlertText? || (msg.Syn? && !SawSettings(s.trace))
  }

  function Settle(s: State): State {
    Looped(Looped(Looped(s, true), true), true)
  }

  lemma RespondsTo(s: State, msg: Message)
    requires s.loop == Reading && !s.sweeping
    requires (s.settings <==> SawSettings(s.trace)) && s.peerVersion == LastVersion(s.trace)
    ensures var t := Settle(Received(s, msg));
            && t.trace == s.trace + [Got(msg)] + Answer(s, msg) && t.streams == StreamsAfter(s, msg)
            && t.loop == (if Final(s, msg) then Stopped else Reading)
  {
    match msg
    case Settings(v, stale) => RespondsToSettings(s, v, stale);
    case Syn(sid) => RespondsToSyn(s, sid);
    case Fin(sid) => RespondsToFin(s, sid);
    case HeartRequest(sid) => assert Looped(Received(s, msg), true).loop == Reading;
    case AlertText =>
    case EmptySettings =>
    case OtherFrame =>
  }

  lemma RespondsToSettings(s: State, v: Version, stale: bool)
    requires s.loop == Reading
    ensures var t := Settle(Received(s, Settings(v, stale)));
            && t.trace == s.trace + [Got(Settings(v, stale))] + Answer(s, Settings(v, stale))
            && t.streams == s.streams && t.loop == Reading
  {
    var r := Received(s, Settings(v, stale));
    if stale {
      assert Looped(r, true).loop == Greeting(v, false);
    } else if v.Version? && v.v >= 2 {
      assert Looped(r, true).loop == Hello;
    }
  }

  lemma RespondsToSyn(s: State, sid: uint32)
    requires s.loop == Reading && !s.sweeping
    requires (s.settings <==> SawSettings(s.trace)) && s.peerVersion == LastVersion(s.trace)
    ensures var t := Settle(Received(s, Syn(sid)));
            && t.trace == s.trace + [Got(Syn(sid))] + Answer(s, Syn(sid)) && t.streams == StreamsAfter(s, Syn(sid))
            && t.loop == (if SawSettings(s.trace) then Reading else Stopped)
  {
    var r := Received(s, Syn(sid));
    if !s.settings {
      assert Looped(r, true).loop == Stopped;
    } else if sid in s.streams || |s.streams| < MAX_STREAMS {
      assert Looped(r, true).loop == Reading;
    } else {
      assert Looped(r, true).loop == Refusing(sid);
      assert Looped(Looped(r, true), true).loop == Reading;
    }
  }

  lemma RespondsToFin(s: State, sid: uint32)
    requires s.loop == Reading
    ensures var t := Settle(Received(s, Fin(sid)));
            && t.trace == s.trace + [Got(Fin(sid))] + Answer(s, Fin(sid))
            && t.streams == s.streams - {sid} && t.loop == Reading
  {
    var r := Received(s, Fin(sid));
    if sid in s.streams {
      assert Looped(r, true).loop == Reading;
    } else {
      assert s.streams - {sid} == s.streams;
    }
  }

  /** In every run, a frame that the loop takes and deals with undisturbed, with no write failing,
      gets exactly the answer it should, and leaves exactly the streams it should. */
  lemma DialogueIsExact(es: seq<Event>, msg: Message)
    requires Run(es).loop == Reading && !Run(es).sweeping
    ensures exists es' :: es <= es' && Dealt(Run(es), Run(es'), msg)
  {
    SettingsRun(es);
    CurrentRun(es);
    RespondsTo(Run(es), msg);
    var t, es' := RunFour(es, Receive(msg), LoopStep(true), LoopStep(true), LoopStep(true));
    assert Dealt(Run(es), t, msg);
  }

  predicate Dealt(s: State, t: State, msg: Message) {
    && t.trace == s.trace + [Got(msg)] + Answer(s, msg) && t.streams == StreamsAfter(s, msg)
    && t.loop == (if Final(s, msg) then Stopped else Reading)
  }

  // ---------- closed sessions ----------

  predicate Over(s: State, h: nat) {
    h < |s.objects| && s.objects[h].closer == Finished && s.objects[h].cause == ByHandler
  }

  lemma OverLooped(s: State, e: Event, h: nat)
    requires Over(s, h) && !OfHandler(e)
    ensures Over(Apply(s, e), h)
  {
  }

  lemma OverHandled(s: State, e: Event, g: nat, h: nat)
    requires Over(s, h) && g < |s.objects|
    ensures Over(Handled(s, e, g), h)
  {
    if g != h {
      HandledOwn(s, e, g);
      OnlyOne(s.objects, Handled(s, e, g).objects, g);
    }
  }

  lemma UncountedHandled(s: State, e: Event, g: nat, h: nat)
    requires Over(s, h) && g < |s.objects|
    ensures Count(Handled(s, e, g).trace, FIN, h) == Count(s.trace, FIN, h)
  {
    var o := s.objects[g];
    CountAppend(s.trace, Sent(SYNACK, o.sid, Stream(g)), h);
    CountAppend(s.trace, Died(g, false), h);
    CountAppend(s.trace, Sent(FIN, o.sid, Stream(g)), h);
  }

  lemma FinishedStays(s: State, e: Event, h: nat)
    requires Over(s, h)
    ensures Over(Apply(s, e), h) && Count(Apply(s, e).trace, FIN, h) == Count(s.trace, FIN, h)
  {
    if OfHandler(e) {
      if e.handle < |s.objects| {
        OverHandled(s, e, e.handle, h);
        UncountedHandled(s, e, e.handle, h);
      }
    } else {
      OverLooped(s, e, h);
      UncountedLooped(s, e, h);
    }
  }

  lemma UncountedLooped(s: State, e: Event, h: nat)
    requires !OfHandler(e)
    ensures Count(Apply(s, e).trace, FIN, h) == Count(s.trace, FIN, h)
  {
    if e.Receive? {
      ReceiveAdds(s, e.msg);
      CountAppend(s.trace, Got(e.msg), h);
    } else {
      var added := LoopAdds(s, e);
      NoneCounted(s.trace, added, h);
    }
  }

  lemma {:induction false} NoneCounted(t: seq<Entry>, added: seq<Entry>, h: nat)
    requires Neutral(added)
    ensures Count(t + added, FIN, h) == Count(t, FIN, h)
    decreases |added|
  {
    if added == [] {
      assert t + added == t;
    } else {
      var n := |added| - 1;
      NoneCounted(t, added[..n], h);
      CountAppend(t + added[..n], added[n], h);
      assert t + added == t + added[..n] + [added[n]];
    }
  }

  lemma RunLast(es: seq<Event>, more: seq<Event>, n: nat)
    requires |more| == n + 1
    ensures Run(es + more) == Apply(Run(es + more[..n]), more[n])
  {
    assert es + more == es + more[..n] + [more[n]];
    RunOne(es + more[..n], more[n]);
  }

  predicate Untold(s: State, h: nat) {
    Over(s, h) && Count(s.trace, FIN, h) == 0
  }

  lemma UntoldStays(s: State, e: Event, t: State, h: nat)
    requires Untold(s, h) && t == Apply(s, e)
    ensures Untold(t, h)
  {
    FinishedStays(s, e, h);
  }

  lemma {:induction false} NeverToldLater(es: seq<Event>, more: seq<Event>, h: nat)
    requires Untold(Run(es), h)
    ensures Untold(Run(es + more), h)
    decreases |more|
  {
    if more == [] {
      assert es + more == es;
    } else {
      var n := |more| - 1;
      NeverToldLater(es, more[..n], h);
      RunLast(es, more, n);
      UntoldStays(Run(es + more[..n]), more[n], Run(es + more), h);
    }
  }

  /** In every run, a stream that its handler closes after the session was closed never gets a
      FIN, whatever happens later. */
  lemma ClosedSessionSendsNoFin(es: seq<Event>, h: nat, more: seq<Event>)
    requires h < |Run(es).objects| && Run(es).objects[h].cause == Alive && Run(es).closed
    ensures Count(Run(es + [CloseStream(h), CloseCheck(h)] + more).trace, FIN, h) == 0
  {
    CountedRun(es, h);
    RunTwo(es, CloseStream(h), CloseCheck(h));
    CountAppend(Run(es).trace, Died(h, false), h);
    NeverToldLater(es + [CloseStream(h), CloseCheck(h)], more, h);
  }

  lemma LinkedRun(es: seq<Event>)
    ensures Linked(Run(es))
  {
    InvRun(es);
  }

  lemma SweepStep(s: State, sid: uint32)
    requires Linked(s) && s.sweeping && sid in s.streams
    ensures !Apply(s, SweepEnd).sweeping ==>
              s.objects[s.streams[sid]].cause != Alive && Apply(s, SweepEnd).streams == map[]
    ensures var t, h := Apply(s, SweepOne(sid)), s.streams[sid];
            && |t.objects| == |s.objects|
            && t.objects[h].cause == if s.objects[h].cause == Alive then ByLocal else s.objects[h].cause
  {
  }

  /** In every run, the sweep of a closing session ends only when every registered stream is dead,
      and empties the map; until then it can kill any of them that is alive. */
  lemma SweepKillsAll(es: seq<Event>, sid: uint32)
    requires Run(es).sweeping && sid in Run(es).streams
    ensures Run(es).streams[sid] < |Run(es).objects|
    ensures !Run(es + [SweepEnd]).sweeping ==>
              Run(es).objects[Run(es).streams[sid]].cause != Alive && Run(es + [SweepEnd]).streams == map[]
    ensures var s, t := Run(es), Run(es + [SweepOne(sid)]);
            var h := s.streams[sid];
            && |t.objects| == |s.objects|
            && t.objects[h].cause == if s.objects[h].cause == Alive then ByLocal else s.objects[h].cause
  {
    LinkedRun(es);
    SweepStep(Run(es), sid);
    RunOne(es, SweepEnd);
    RunOne(es, SweepOne(sid));
  }

  // ---------- failing writes ----------

  predicate IsReplying(loop: Loop) {
    loop.Refusing? || loop.Hello? || loop.Alerting? || loop.Answering? || (loop.Greeting? && loop.stale)
  }

  lemma FailedReply(s: State)
    requires IsReplying(s.loop)
    ensures Apply(s, LoopStep(false)) == s.(closed := true, loop := Stopped)
  {
  }

  lemma FailedFrame(s: State, h: nat)
    requires h < |s.objects|
    ensures s.objects[h].closer == Writing ==>
              Apply(s, CloseWrite(h, false)).closed && Apply(s, CloseWrite(h, false)).trace == s.trace
    ensures s.objects[h].reporter == Reporting && s.peerVersion >= 2 ==>
              Apply(s, ReportWrite(h, true, false)).closed && Apply(s, ReportWrite(h, true, false)).trace == s.trace
  {
  }

  /** In every run, a reply of the receive loop that cannot be written closes the session, stops
      the loop and is not sent. */
  lemma FailedReplyCloses(es: seq<Event>)
    requires IsReplying(Run(es).loop)
    ensures Run(es + [LoopStep(false)]) == Run(es).(closed := true, loop := Stopped)
  {
    RunOne(es, LoopStep(false));
    FailedReply(Run(es));
  }

  /** So does a stream's FIN or SYNACK that cannot be written. */
  lemma FailedFrameCloses(es: seq<Event>, h: nat)
    requires h < |Run(es).objects|
    ensures Run(es).objects[h].closer == Writing ==>
              Run(es + [CloseWrite(h, false)]).closed && Run(es + [CloseWrite(h, false)]).trace == Run(es).trace
    ensures Run(es).objects[h].reporter == Reporting && Run(es).peerVersion >= 2 ==>
              && Run(es + [ReportWrite(h, true, false)]).closed
              && Run(es + [ReportWrite(h, true, false)]).trace == Run(es).trace
  {
    RunOne(es, CloseWrite(h, false));
    RunOne(es, ReportWrite(h, true, false));
    FailedFrame(Run(es), h);
  }

  // ---------- closing the session ----------

  /** The streams of `keys` are the only registered ones that may be alive. */
  predicate OnlyAlive(s: State, keys: set<uint32>) {
    && s.closed && s.sweeping && Linked(s)
    && forall sid :: sid in s.streams && sid !in keys ==> s.objects[s.streams[sid]].cause != Alive
  }

  lemma SweepsOne(s: State, keys: set<uint32>, sid: uint32)
    requires OnlyAlive(s, keys) && sid in keys && sid in s.streams
    ensures var t := Apply(s, SweepOne(sid));
            && t.streams == s.streams && Linked(t) && OnlyAlive(t, keys - {sid})
            && forall h :: 0 <= h < |s.objects| && s.objects[h].cause != Alive ==> t.objects[h].cause != Alive
  {
  }

  /** What a closed session comes to: no stream is registered, and those that were are dead. */
  predicate AllEnded(s: State, t: State) {
    && t.closed && !t.sweeping && t.streams == map[]
    && forall sid :: sid in s.streams && s.streams[sid] < |t.objects| ==> t.objects[s.streams[sid]].cause != Alive
  }

  lemma {:induction false} SweepsAll(es: seq<Event>, keys: set<uint32>) returns (es': seq<Event>)
    requires keys <= Run(es).streams.Keys && OnlyAlive(Run(es), keys)
    ensures es <= es' && AllEnded(Run(es), Run(es'))
    decreases |keys|
  {
    if keys == {} {
      es' := es + [SweepEnd];
      RunOne(es, SweepEnd);
    } else {
      var sid :| sid in keys;
      SweepsOne(Run(es), keys, sid);
      RunOne(es, SweepOne(sid));
      es' := SweepsAll(es + [SweepOne(sid)], keys - {sid});
    }
  }

  /** Every run can go on to a session that is closed for good, with all its streams ended. */
  lemma CloseEndsAll(es: seq<Event>)
    ensures exists es' :: es <= es' && AllEnded(Run(es), Run(es'))
  {
    RunTwo(es, CloseSession, SweepStart);
    var es1 := es + [CloseSession, SweepStart];
    assert Run(es1).streams == Run(es).streams && Run(es1).sweeping && Run(es1).closed;
    LinkedRun(es1);
    var es' := SweepsAll(es1, Run(es1).streams.Keys);
  }
}
