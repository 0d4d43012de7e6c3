/** The per-stream UDP router as a state machine: packets are decided one by one through a
    bounded cache, the outbound socket is opened on the first allowed packet and serves the
    whole stream, and writers, readers and closers interleave freely. Each critical section
    is one step; a step that is not possible in a state leaves it unchanged, so every
    sequence of events is a run. */
module Router {
  import opened Text
  import opened RuleSet
  import opened Route

  const MAX_CACHE: nat := 256

  /** A packet on its way: `Deciding`, then `Locking` with a route, then `Comparing` it with
      the outbound the socket belongs to; in the end its buffer is released or handed on. */
  datatype Phase =
    | Deciding
    | Locking(outbound: Outbound, target: Dest)
    | Comparing(outbound: Outbound, target: Dest, bound: Outbound)
    | Released
    | Forwarded(outbound: Outbound, target: Dest)

  /** `releases` and `handovers` count what happened to the packet's buffer. */
  datatype Packet = Packet(dest: Dest, phase: Phase, releases: nat, handovers: nat)

  datatype Closer = Calling | ClosingSocket | Closed
  datatype Reader = Blocked | Reading | Ended

  /** `socket` is the outbound the socket was opened with. `decisions` records every policy
      decision with what was found for it. The counters are events so far. */
  datatype State = State(
    cache: map<string, Decision>,
    socket: Option<Outbound>,
    closed: bool,
    ready: bool,
    packets: seq<Packet>,
    closers: seq<Closer>,
    readers: seq<Reader>,
    decisions: set<(Dest, Answer)>,
    opens: nat,
    readyCloses: nat,
    socketCloses: nat)

  datatype Event =
    | Send(dest: Dest)
    | Decide(i: nat, found: Answer, victim: string)
    | Lock(i: nat, listens: bool)
    | Finish(i: nat)
    | CallClose
    | CloseLocked(c: nat)
    | CloseSocket(c: nat)
    | CallRead
    | ReadReady(r: nat)

  const START := State(map[], None, false, false, [], [], [], {}, 0, 0, 0)

  /** What does not change during a stream: the policy, and how literal addresses are read. */
  datatype Stream = Stream(policy: Policy, parse: Parser)

  /** The policy's decision on a destination, given what a lookup of its name found. */
  function Routed(st: Stream, d: Dest, found: Answer): Decision {
    SelectRoute(st.policy, d, Resolve(st.parse, d, found), Udp)
  }

  // ---------- the steps ----------

  function SetPhase(s: State, i: nat, phase: Phase): State
    requires i < |s.packets|
  {
    s.(packets := s.packets[i := s.packets[i].(phase := phase)])
  }

  function Release(s: State, i: nat): State
    requires i < |s.packets|
  {
    s.(packets := s.packets[i := s.packets[i].(phase := Released, releases := s.packets[i].releases + 1)])
  }

  function Forward(s: State, i: nat, o: Outbound, target: Dest): State
    requires i < |s.packets|
  {
    s.(packets := s.packets[i := s.packets[i].(phase := Forwarded(o, target), handovers := s.packets[i].handovers + 1)])
  }

  /** The decision for a packet moves it on. */
  function Moved(s: State, i: nat, d: Decision): State
    requires i < |s.packets|
  {
    if d.Accepted? then SetPhase(s, i, Locking(d.outbound, d.target)) else Release(s, i)
  }

  function Decided(st: Stream, s: State, i: nat, found: Answer, victim: string): State
    requires i < |s.packets|
  {
    var dest := s.packets[i].dest;
    var k := DestText(dest);
    if !s.packets[i].phase.Deciding? then s
    else if k in s.cache then Moved(s, i, s.cache[k])
    else if |s.cache| >= MAX_CACHE && victim !in s.cache then s
    else Cached(s, i, k, Routed(st, dest, found), (dest, found), victim)
  }

  /** A new decision `d` goes into the cache under `k`, and moves its packet on. */
  function Cached(s: State, i: nat, k: string, d: Decision, x: (Dest, Answer), victim: string): State
    requires i < |s.packets|
  {
    var kept := if |s.cache| >= MAX_CACHE then s.cache - {victim} else s.cache;
    Moved(s.(cache := kept[k := d], decisions := s.decisions + {x}), i, d)
  }

  function LockedOn(s: State, i: nat, listens: bool): State
    requires i < |s.packets|
  {
    match s.packets[i].phase
    case Locking(o, target) =>
      if s.closed then Release(s, i)
      else if s.socket.Some? then SetPhase(s, i, Comparing(o, target, s.socket.value))
      else if !listens then Release(s, i)
      else SetPhase(s, i, Comparing(o, target, o))
           .(socket := Some(o), opens := s.opens + 1, ready := true, readyCloses := s.readyCloses + 1)
    case _ => s
  }

  function Finished(s: State, i: nat): State
    requires i < |s.packets|
  {
    match s.packets[i].phase
    case Comparing(o, target, bound) => if o != bound then Release(s, i) else Forward(s, i, o, target)
    case _ => s
  }

  function CloseEntered(s: State, c: nat): State
    requires c < |s.closers|
  {
    if s.closers[c] != Calling then s
    else if s.closed then s.(closers := s.closers[c := Closed])
    else s.(closed := true, ready := true, readyCloses := s.readyCloses + if s.ready then 0 else 1,
            closers := s.closers[c := if s.socket.Some? then ClosingSocket else Closed])
  }

  function SocketClosed(s: State, c: nat): State
    requires c < |s.closers|
  {
    if s.closers[c] != ClosingSocket then s
    else s.(closers := s.closers[c := Closed], socketCloses := s.socketCloses + 1)
  }

  function Apply(st: Stream, s: State, e: Event): State {
    match e
    case Send(dest) => s.(packets := s.packets + [Packet(dest, Deciding, 0, 0)])
    case Decide(i, found, victim) => if i < |s.packets| then Decided(st, s, i, found, victim) else s
    case Lock(i, listens) => if i < |s.packets| then LockedOn(s, i, listens) else s
    case Finish(i) => if i < |s.packets| then Finished(s, i) else s
    case CallClose => s.(closers := s.closers + [Calling])
    case CloseLocked(c) => if c < |s.closers| then CloseEntered(s, c) else s
    case CloseSocket(c) => if c < |s.closers| then SocketClosed(s, c) else s
    case CallRead => s.(readers := s.readers + [Blocked])
    case ReadReady(r) =>
      if r < |s.readers| && s.readers[r] == Blocked && s.ready
      then s.(readers := s.readers[r := if s.socket.Some? then Reading else Ended]) else s
  }

  function Run(st: Stream, es: seq<Event>): State {
    if es == [] then START else Apply(st, Run(st, es[..|es| - 1]), es[|es| - 1])
  }

  // ---------- the socket ----------

  function Pending(cs: seq<Closer>): nat {
    if cs == [] then 0 else Pending(cs[..|cs| - 1]) + if cs[|cs| - 1] == ClosingSocket then 1 else 0
  }

  lemma {:induction false} PendingSet(cs: seq<Closer>, c: nat, x: Closer)
    requires c < |cs|
    ensures Pending(cs[c := x]) ==
            Pending(cs) - (if cs[c] == ClosingSocket then 1 else 0) + (if x == ClosingSocket then 1 else 0)
    ensures cs[c] == ClosingSocket ==> Pending(cs) > 0
    decreases |cs|
  {
    var n := |cs| - 1;
    if c < n {
      PendingSet(cs[..n], c, x);
      assert cs[c := x][..n] == cs[..n][c := x];
    } else {
      assert cs[c := x][..n] == cs[..n];
    }
  }

  lemma PendingAppend(cs: seq<Closer>, x: Closer)
    ensures Pending(cs + [x]) == Pending(cs) + if x == ClosingSocket then 1 else 0
  {
    assert (cs + [x])[..|cs|] == cs;
  }

  /** The socket is opened once at most, only while not closed, and closed once by the close
      that found it; `ready` is closed once, when there is a socket or the stream is closed. */
  predicate SocketOk(s: State) {
    && |s.cache| <= MAX_CACHE
    && s.opens == (if s.socket.Some? then 1 else 0)
    && s.readyCloses == (if s.ready then 1 else 0)
    && (s.ready <==> s.closed || s.socket.Some?)
    && s.socketCloses + Pending(s.closers) == (if s.closed && s.socket.Some? then 1 else 0)
  }

  lemma SocketSame(s: State, t: State)
    requires SocketOk(s) && |t.cache| <= MAX_CACHE
    requires t.socket == s.socket && t.closed == s.closed && t.ready == s.ready && t.closers == s.closers
    requires t.opens == s.opens && t.readyCloses == s.readyCloses && t.socketCloses == s.socketCloses
    ensures SocketOk(t)
  {
  }

  lemma EvictedSize(cache: map<string, Decision>, victim: string)
    requires victim in cache
    ensures |cache - {victim}| == |cache| - 1
  {
    assert (cache - {victim}).Keys == cache.Keys - {victim};
  }

  lemma CacheBounded(st: Stream, s: State, i: nat, found: Answer, victim: string)
    requires |s.cache| <= MAX_CACHE && i < |s.packets|
    ensures |Decided(st, s, i, found, victim).cache| <= MAX_CACHE
  {
    if victim in s.cache { EvictedSize(s.cache, victim); }
  }

  lemma SocketDecided(st: Stream, s: State, i: nat, found: Answer, victim: string)
    requires SocketOk(s) && i < |s.packets|
    ensures SocketOk(Decided(st, s, i, found, victim))
  {
    CacheBounded(st, s, i, found, victim);
    SocketSame(s, Decided(st, s, i, found, victim));
  }

  lemma SocketLocked(s: State, i: nat, listens: bool)
    requires SocketOk(s) && i < |s.packets|
    ensures SocketOk(LockedOn(s, i, listens)) && SocketOk(Finished(s, i))
  {
  }

  lemma SocketCloseEntered(s: State, c: nat)
    requires SocketOk(s) && c < |s.closers|
    ensures SocketOk(CloseEntered(s, c))
  {
    PendingSet(s.closers, c, Closed);
    PendingSet(s.closers, c, ClosingSocket);
  }

  lemma SocketClosedOnce(s: State, c: nat)
    requires SocketOk(s) && c < |s.closers|
    ensures SocketOk(SocketClosed(s, c))
  {
    PendingSet(s.closers, c, Closed);
  }

  lemma SocketCallClose(s: State)
    requires SocketOk(s)
    ensures SocketOk(s.(closers := s.closers + [Calling]))
  {
    PendingAppend(s.closers, Calling);
  }

  lemma SocketStep(st: Stream, s: State, e: Event)
    requires SocketOk(s)
    ensures SocketOk(Apply(st, s, e))
  {
    match e
    case Send(_) => SocketSame(s, Apply(st, s, e));
    case Decide(i, found, victim) => if i < |s.packets| { SocketDecided(st, s, i, found, victim); }
    case Lock(i, listens) => if i < |s.packets| { SocketLocked(s, i, listens); }
    case Finish(i) => if i < |s.packets| { SocketLocked(s, i, false); }
    case CallClose => SocketCallClose(s);
    case CloseLocked(c) => if c < |s.closers| { SocketCloseEntered(s, c); }
    case CloseSocket(c) => if c < |s.closers| { SocketClosedOnce(s, c); }
    case CallRead => SocketSame(s, Apply(st, s, e));
    case ReadReady(_) => SocketSame(s, Apply(st, s, e));
  }

  // ---------- the packets ----------

  /** Some decision of the policy, for a destination with the given text, chose this route. */
  ghost predicate Chosen(st: Stream, s: State, k: string, o: Outbound, target: Dest) {
    exists x :: ChosenBy(st, s, k, o, target, x)
  }

  ghost predicate ChosenBy(st: Stream, s: State, k: string, o: Outbound, target: Dest, x: (Dest, Answer)) {
    x in s.decisions && DestText(x.0) == k && Routed(st, x.0, x.1) == Accepted(o, target)
  }

  ghost predicate CacheOk(st: Stream, s: State) {
    forall k :: k in s.cache && s.cache[k].Accepted? ==> Chosen(st, s, k, s.cache[k].outbound, s.cache[k].target)
  }

  ghost predicate PacketOk(st: Stream, s: State, p: Packet) {
    var k := DestText(p.dest);
    match p.phase
    case Deciding => p.releases == p.handovers == 0
    case Locking(o, target) => p.releases == p.handovers == 0 && Chosen(st, s, k, o, target)
    case Comparing(o, target, bound) =>
      p.releases == p.handovers == 0 && Chosen(st, s, k, o, target) && s.socket == Some(bound)
    case Released => p.releases == 1 && p.handovers == 0
    case Forwarded(o, target) =>
      p.releases == 0 && p.handovers == 1 && Chosen(st, s, k, o, target) && s.socket == Some(o)
  }

  ghost predicate PacketsOk(st: Stream, s: State) {
    CacheOk(st, s) && forall i :: 0 <= i < |s.packets| ==> PacketOk(st, s, s.packets[i])
  }

  lemma ChosenKept(st: Stream, s: State, t: State, k: string, o: Outbound, target: Dest)
    requires s.decisions <= t.decisions && Chosen(st, s, k, o, target)
    ensures Chosen(st, t, k, o, target)
  {
    var x :| ChosenBy(st, s, k, o, target, x);
    assert ChosenBy(st, t, k, o, target, x);
  }

  lemma PacketKept(st: Stream, s: State, t: State, p: Packet)
    requires PacketOk(st, s, p) && s.decisions <= t.decisions && (s.socket.Some? ==> t.socket == s.socket)
    ensures PacketOk(st, t, p)
  {
    if p.phase.Locking? || p.phase.Comparing? || p.phase.Forwarded? {
      ChosenKept(st, s, t, DestText(p.dest), p.phase.outbound, p.phase.target);
    }
  }

  lemma CacheKept(st: Stream, s: State, t: State)
    requires CacheOk(st, s) && s.decisions <= t.decisions && t.cache == s.cache
    ensures CacheOk(st, t)
  {
    forall k | k in t.cache && t.cache[k].Accepted?
      ensures Chosen(st, t, k, t.cache[k].outbound, t.cache[k].target)
    {
      ChosenKept(st, s, t, k, s.cache[k].outbound, s.cache[k].target);
    }
  }

  /** A step that changes at most packet `i` keeps the others. */
  lemma PacketsStep(st: Stream, s: State, t: State, i: nat)
    requires PacketsOk(st, s) && CacheOk(st, t)
    requires s.decisions <= t.decisions && (s.socket.Some? ==> t.socket == s.socket)
    requires |s.packets| <= |t.packets| <= |s.packets| + 1
    requires forall j :: 0 <= j < |s.packets| && j != i ==> t.packets[j] == s.packets[j]
    requires i < |t.packets| ==> PacketOk(st, t, t.packets[i])
    requires |t.packets| > |s.packets| ==> i == |s.packets|
    ensures PacketsOk(st, t)
  {
    forall j | 0 <= j < |t.packets| ensures PacketOk(st, t, t.packets[j]) {
      if j != i {
        PacketKept(st, s, t, s.packets[j]);
      }
    }
  }

  lemma PacketsDecided(st: Stream, s: State, i: nat, found: Answer, victim: string)
    requires PacketsOk(st, s) && i < |s.packets|
    ensures PacketsOk(st, Decided(st, s, i, found, victim))
  {
    var t := Decided(st, s, i, found, victim);
    var p := s.packets[i];
    var k := DestText(p.dest);
    assert PacketOk(st, s, p);
    if k in s.cache {
      CacheKept(st, s, t);
      PacketMoved(st, s, t, i, k);
    } else if t != s {
      var d, x := Routed(st, p.dest, found), (p.dest, found);
      ChosenNew(st, Cached(s, i, k, d, x, victim), k, d, x);
      PacketsCached(st, s, i, k, d, x, victim);
    }
  }

  lemma ChosenNew(st: Stream, t: State, k: string, d: Decision, x: (Dest, Answer))
    requires x in t.decisions && k == DestText(x.0) && d == Routed(st, x.0, x.1)
    ensures d.Accepted? ==> Chosen(st, t, k, d.outbound, d.target)
  {
    if d.Accepted? {
      assert ChosenBy(st, t, k, d.outbound, d.target, x);
    }
  }

  lemma PacketsCached(st: Stream, s: State, i: nat, k: string, d: Decision, x: (Dest, Answer), victim: string)
    requires PacketsOk(st, s) && i < |s.packets| && s.packets[i].phase.Deciding? && k == DestText(s.packets[i].dest)
    requires d.Accepted? ==> Chosen(st, Cached(s, i, k, d, x, victim), k, d.outbound, d.target)
    ensures PacketsOk(st, Cached(s, i, k, d, x, victim))
  {
    var t := Cached(s, i, k, d, x, victim);
    assert s.decisions <= t.decisions && t.socket == s.socket;
    CacheDecided(st, s, t, k);
    PacketMoved(st, s, t, i, k);
  }

  lemma CacheDecided(st: Stream, s: State, t: State, k: string)
    requires CacheOk(st, s) && s.decisions <= t.decisions && k in t.cache
    requires forall x :: x in t.cache && x != k ==> x in s.cache && t.cache[x] == s.cache[x]
    requires t.cache[k].Accepted? ==> Chosen(st, t, k, t.cache[k].outbound, t.cache[k].target)
    ensures CacheOk(st, t)
  {
    forall x | x in t.cache && t.cache[x].Accepted?
      ensures Chosen(st, t, x, t.cache[x].outbound, t.cache[x].target)
    {
      if x != k {
        ChosenKept(st, s, t, x, s.cache[x].outbound, s.cache[x].target);
      }
    }
  }

  lemma PacketMoved(st: Stream, s: State, t: State, i: nat, k: string)
    requires PacketsOk(st, s) && CacheOk(st, t) && i < |s.packets| && k == DestText(s.packets[i].dest) && k in t.cache
    requires s.packets[i].phase.Deciding? || t == s
    requires t == s || t.packets == Moved(s, i, t.cache[k]).packets
    requires s.decisions <= t.decisions && t.socket == s.socket
    ensures PacketsOk(st, t)
  {
    if t != s {
      assert PacketOk(st, s, s.packets[i]);
      PacketsStep(st, s, t, i);
    }
  }

  lemma PacketsLocked(st: Stream, s: State, i: nat, listens: bool)
    requires PacketsOk(st, s) && i < |s.packets|
    ensures PacketsOk(st, LockedOn(s, i, listens))
  {
    var t := LockedOn(s, i, listens);
    assert PacketOk(st, s, s.packets[i]);
    CacheKept(st, s, t);
    if s.packets[i].phase.Locking? {
      ChosenKept(st, s, t, DestText(s.packets[i].dest), s.packets[i].phase.outbound, s.packets[i].phase.target);
      PacketsStep(st, s, t, i);
    }
  }

  /** The step that compares outbounds changes one packet and nothing else. */
  lemma FinishedOne(s: State, i: nat)
    requires i < |s.packets| && s.packets[i].phase.Comparing?
    ensures var x, t := s.packets[i], Finished(s, i);
            && t == s.(packets := s.packets[i := t.packets[i]])
            && t.packets[i] ==
               if x.phase.outbound != x.phase.bound then x.(phase := Released, releases := x.releases + 1)
               else x.(phase := Forwarded(x.phase.outbound, x.phase.target), handovers := x.handovers + 1)
  {
  }

  lemma PacketsFinished(st: Stream, s: State, i: nat)
    requires PacketsOk(st, s) && i < |s.packets|
    ensures PacketsOk(st, Finished(s, i))
  {
    var x := s.packets[i];
    assert PacketOk(st, s, x);
    if x.phase.Comparing? {
      var t := Finished(s, i);
      FinishedOne(s, i);
      CacheKept(st, s, t);
      ChosenKept(st, s, t, DestText(x.dest), x.phase.outbound, x.phase.target);
      PacketsStep(st, s, t, i);
    }
  }

  lemma PacketsRun(st: Stream, s: State, e: Event)
    requires PacketsOk(st, s)
    ensures PacketsOk(st, Apply(st, s, e))
  {
    match e
    case Decide(i, found, victim) => if i < |s.packets| { PacketsDecided(st, s, i, found, victim); }
    case Lock(i, listens) => if i < |s.packets| { PacketsLocked(st, s, i, listens); }
    case Finish(i) => if i < |s.packets| { PacketsFinished(st, s, i); }
    case Send(_) => PacketsElsewhere(st, s, Apply(st, s, e));
    case CallClose => PacketsElsewhere(st, s, Apply(st, s, e));
    case CloseLocked(_) => PacketsElsewhere(st, s, Apply(st, s, e));
    case CloseSocket(_) => PacketsElsewhere(st, s, Apply(st, s, e));
    case CallRead => PacketsElsewhere(st, s, Apply(st, s, e));
    case ReadReady(_) => PacketsElsewhere(st, s, Apply(st, s, e));
  }

  lemma PacketsElsewhere(st: Stream, s: State, t: State)
    requires PacketsOk(st, s) && t.cache == s.cache && t.socket == s.socket && t.decisions == s.decisions
    requires t.packets == s.packets || (|t.packets| == |s.packets| + 1 && t.packets[..|s.packets|] == s.packets
                                        && t.packets[|s.packets|].phase.Deciding?
                                        && t.packets[|s.packets|].releases == t.packets[|s.packets|].handovers == 0)
    ensures PacketsOk(st, t)
  {
    CacheKept(st, s, t);
    PacketsStep(st, s, t, |s.packets|);
  }

  // ---------- the theorems ----------

  lemma {:induction false} RouterRun(st: Stream, es: seq<Event>)
    ensures SocketOk(Run(st, es)) && PacketsOk(st, Run(st, es))
  {
    if es == [] {
    } else {
      RouterRun(st, es[..|es| - 1]);
      SocketStep(st, Run(st, es[..|es| - 1]), es[|es| - 1]);
      PacketsRun(st, Run(st, es[..|es| - 1]), es[|es| - 1]);
    }
  }

  /** In every interleaving: the cache stays within its bound; the outbound is bound at most
      once and `ready` closed at most once; the socket is closed at most once, and exactly
      once when the stream is closed and no close is still at it; readers are let through
      only when there is a socket or the stream is closed. */
  lemma SocketIsSafe(st: Stream, es: seq<Event>)
    ensures var s := Run(st, es);
            && |s.cache| <= MAX_CACHE && s.opens <= 1 && s.readyCloses <= 1 && s.socketCloses <= s.opens
            && (s.closed && Pending(s.closers) == 0 ==> s.socketCloses == s.opens)
            && (s.ready <==> s.closed || s.socket.Some?)
  {
    RouterRun(st, es);
  }

  /** In every interleaving each packet's buffer is released or handed on at most once, and
      exactly once when the packet is done; and a forwarded packet left through the bound
      outbound, to the target that a policy decision for a destination of the same text
      chose with that outbound. */
  lemma PacketsAreSafe(st: Stream, es: seq<Event>, i: nat)
    requires i < |Run(st, es).packets|
    ensures var s := Run(st, es); var p := s.packets[i];
            && p.releases == (if p.phase.Released? then 1 else 0)
            && p.handovers == (if p.phase.Forwarded? then 1 else 0)
            && (p.phase.Forwarded? ==>
                  && s.socket == Some(p.phase.outbound)
                  && Chosen(st, s, DestText(p.dest), p.phase.outbound, p.phase.target))
  {
    RouterRun(st, es);
    assert PacketOk(st, Run(st, es), Run(st, es).packets[i]);
  }

  /** Decisions are made for the destinations of packets. */
  ghost predicate Sourced(s: State) {
    forall x :: x in s.decisions ==> IsSent(s, x.0)
  }

  predicate IsSent(s: State, d: Dest) {
    exists i :: 0 <= i < |s.packets| && s.packets[i].dest == d
  }

  lemma SentKept(s: State, t: State)
    requires Sourced(s) && |s.packets| <= |t.packets|
    requires forall i :: 0 <= i < |s.packets| ==> t.packets[i].dest == s.packets[i].dest
    requires forall x :: x in t.decisions ==> x in s.decisions || IsSent(t, x.0)
    ensures Sourced(t)
  {
    forall x | x in t.decisions ensures IsSent(t, x.0) {
      if x in s.decisions {
        var i :| 0 <= i < |s.packets| && s.packets[i].dest == x.0;
        assert t.packets[i].dest == x.0;
      }
    }
  }

  lemma MovedSame(s: State, i: nat, d: Decision)
    requires i < |s.packets|
    ensures var t := Moved(s, i, d);
            && |t.packets| == |s.packets| && t.decisions == s.decisions
            && forall j :: 0 <= j < |s.packets| ==> t.packets[j].dest == s.packets[j].dest
  {
  }

  lemma SourcedCached(s: State, i: nat, k: string, d: Decision, x: (Dest, Answer), victim: string)
    requires Sourced(s) && i < |s.packets| && x.0 == s.packets[i].dest
    ensures Sourced(Cached(s, i, k, d, x, victim))
  {
    var kept := if |s.cache| >= MAX_CACHE then s.cache - {victim} else s.cache;
    MovedSame(s.(cache := kept[k := d], decisions := s.decisions + {x}), i, d);
    var t := Cached(s, i, k, d, x, victim);
    assert t.packets[i].dest == x.0;
    SentKept(s, t);
  }

  lemma SourcedDecided(st: Stream, s: State, i: nat, found: Answer, victim: string)
    requires Sourced(s) && i < |s.packets|
    ensures Sourced(Decided(st, s, i, found, victim))
  {
    var d := s.packets[i].dest;
    var k := DestText(d);
    if k in s.cache {
      MovedSame(s, i, s.cache[k]);
      SentKept(s, Moved(s, i, s.cache[k]));
    } else {
      SourcedCached(s, i, k, Routed(st, d, found), (d, found), victim);
    }
  }

  lemma SourcedStep(st: Stream, s: State, e: Event)
    requires Sourced(s)
    ensures Sourced(Apply(st, s, e))
  {
    if e.Decide? {
      if e.i < |s.packets| { SourcedDecided(st, s, e.i, e.found, e.victim); }
    } else {
      SentKept(s, Apply(st, s, e));
    }
  }

  lemma {:induction false} SourcedRun(st: Stream, es: seq<Event>)
    ensures Sourced(Run(st, es))
  {
    if es == [] {
    } else {
      SourcedRun(st, es[..|es| - 1]);
      SourcedStep(st, Run(st, es[..|es| - 1]), es[|es| - 1]);
    }
  }

  /** The packet went where the policy's decision on its own destination sends it, given what
      was found: through the same outbound, to a target of the same text. */
  ghost predicate OwnRoute(st: Stream, p: Packet, found: Answer)
    requires p.phase.Forwarded?
  {
    var r := Routed(st, p.dest, found);
    r.Accepted? && r.outbound == p.phase.outbound && DestText(r.target) == DestText(p.phase.target)
  }

  ghost predicate AllProper(s: State) {
    forall i :: 0 <= i < |s.packets| ==> ProperDest(s.packets[i].dest)
  }

  lemma OwnRouteFrom(st: Stream, s: State, p: Packet, x: (Dest, Answer))
    requires ProperDest(p.dest) && ProperDest(x.0) && p.phase.Forwarded?
    requires ChosenBy(st, s, DestText(p.dest), p.phase.outbound, p.phase.target, x)
    ensures OwnRoute(st, p, x.1)
  {
    if x.0 != p.dest {
      SameTextSameRoute(st.policy, st.parse, x.0, p.dest, x.1, x.1, Udp);
    }
  }

  /** Decision `x` of the run sent the packet: it was made on the packet's own destination, or on
      one that a spelled address gives the same text; it chose exactly the outbound and target
      the packet took; and the policy decides so on the packet's own destination, too. */
  ghost predicate DecidedBy(st: Stream, s: State, p: Packet, x: (Dest, Answer))
    requires p.phase.Forwarded?
  {
    && x in s.decisions
    && (x.0 == p.dest || Spells(x.0, p.dest) || Spells(p.dest, x.0))
    && Routed(st, x.0, x.1) == Accepted(p.phase.outbound, p.phase.target)
    && OwnRoute(st, p, x.1)
  }

  lemma OwnDecision(st: Stream, es: seq<Event>, i: nat) returns (x: (Dest, Answer))
    requires AllProper(Run(st, es)) && i < |Run(st, es).packets| && Run(st, es).packets[i].phase.Forwarded?
    ensures DecidedBy(st, Run(st, es), Run(st, es).packets[i], x)
  {
    PacketsAreSafe(st, es, i);
    SourcedRun(st, es);
    var s := Run(st, es);
    var p := s.packets[i];
    x :| ChosenBy(st, s, DestText(p.dest), p.phase.outbound, p.phase.target, x);
    assert IsSent(s, x.0);
    SameTextExactlyWhenSpelled(x.0, p.dest);
    OwnRouteFrom(st, s, p, x);
  }

  /** In every interleaving, a forwarded packet left through the outbound and to the target of a
      decision made in the run on its own destination, or on one of the same text on which the
      policy decides alike. */
  lemma ForwardedOnOwnDecision(st: Stream, es: seq<Event>, i: nat)
    requires AllProper(Run(st, es)) && i < |Run(st, es).packets| && Run(st, es).packets[i].phase.Forwarded?
    ensures exists x :: DecidedBy(st, Run(st, es), Run(st, es).packets[i], x)
  {
    var x := OwnDecision(st, es, i);
  }

  /** The policy's decision on the packet's own destination, given what was found, is safe. */
  ghost predicate SafelySent(st: Stream, p: Packet, found: Answer)
    requires p.phase.Forwarded?
  {
    Safe(st.policy, p.dest, Resolve(st.parse, p.dest, found), Udp, Routed(st, p.dest, found))
  }

  /** So under the private filter the very decision of the run that sent a packet was safe, on
      the destination it was made on and on the packet's own. */
  lemma ForwardedPacketsAreSafe(st: Stream, es: seq<Event>, i: nat)
    requires st.policy.blockPrivate && AllProper(Run(st, es))
    requires i < |Run(st, es).packets| && Run(st, es).packets[i].phase.Forwarded?
    requires forall x :: x in Run(st, es).decisions ==> ValidAnswer(x.1)
    ensures exists x :: DecidedBy(st, Run(st, es), Run(st, es).packets[i], x)
                        && SafelySent(st, Run(st, es).packets[i], x.1)
                        && Safe(st.policy, x.0, Resolve(st.parse, x.0, x.1), Udp, Routed(st, x.0, x.1))
  {
    var x := OwnDecision(st, es, i);
    SafeDecision(st, Run(st, es).packets[i].dest, x.1);
    assert IsSent(Run(st, es), x.0) by { SourcedRun(st, es); }
    SafeDecision(st, x.0, x.1);
  }

  lemma SafeDecision(st: Stream, d: Dest, found: Answer)
    requires st.policy.blockPrivate && ProperDest(d) && ValidAnswer(found)
    ensures Safe(st.policy, d, Resolve(st.parse, d, found), Udp, Routed(st, d, found))
  {
    ResolvesValid(st.parse, d, found);
    AcceptedRoutesAreSafe(st.policy, d, Resolve(st.parse, d, found), Udp);
  }

  lemma ResolvesValid(parse: Parser, d: Dest, found: Answer)
    requires ValidAnswer(found)
    ensures ValidAnswer(Resolve(parse, d, found))
  {
    if d.Name? { assert |ParseIP(parse, d.fqdn)| in {0, 4, 16}; }
  }

  // ---------- what becomes of a packet ----------

  /** The decision a packet is subject to: the one cached under its destination's text, or a new
      one of the policy. */
  function DecisionUnder(st: Stream, s: State, d: Dest, found: Answer): Decision {
    if DestText(d) in s.cache then s.cache[DestText(d)] else Routed(st, d, found)
  }

  /** What becomes of a packet that is decided so, if nothing interferes: it is forwarded to the
      target chosen unless the decision refuses it, the stream is closed, the socket cannot be
      opened, or the socket belongs to another outbound. */
  function Fate(s: State, d: Decision, listens: bool): Phase {
    if !d.Accepted? || s.closed then Released
    else if s.socket.None? then if listens then Forwarded(d.outbound, d.target) else Released
    else if s.socket == Some(d.outbound) then Forwarded(d.outbound, d.target)
    else Released
  }

  lemma AfterLock(s: State, i: nat, d: Decision, listens: bool)
    requires i < |s.packets| && d.Accepted? && s.packets[i].phase == Locking(d.outbound, d.target)
    ensures |LockedOn(s, i, listens).packets| == |s.packets|
    ensures Finished(LockedOn(s, i, listens), i).packets[i].phase == Fate(s, d, listens)
    ensures Finished(LockedOn(s, i, listens), i).cache == s.cache
  {
    var t := LockedOn(s, i, listens);
    assert !s.closed && s.socket.None? && listens ==> t.packets[i].phase == Comparing(d.outbound, d.target, d.outbound);
    assert !s.closed && s.socket.Some? ==> t.packets[i].phase == Comparing(d.outbound, d.target, s.socket.value);
  }

  lemma AfterRelease(s: State, i: nat, listens: bool)
    requires i < |s.packets| && s.packets[i].phase.Released?
    ensures Finished(LockedOn(s, i, listens), i) == s
  {
  }

  lemma DecidedIs(st: Stream, s: State, i: nat, found: Answer, victim: string)
    requires i < |s.packets| && s.packets[i].phase.Deciding?
    requires DestText(s.packets[i].dest) in s.cache || |s.cache| < MAX_CACHE || victim in s.cache
    ensures var t, k := Decided(st, s, i, found, victim), DestText(s.packets[i].dest);
            var d := DecisionUnder(st, s, s.packets[i].dest, found);
            && |t.packets| == |s.packets| && t.closed == s.closed && t.socket == s.socket
            && t.packets[i].phase == (if d.Accepted? then Locking(d.outbound, d.target) else Released)
            && k in t.cache && t.cache[k] == d
  {
  }

  lemma FateIs(st: Stream, s: State, i: nat, found: Answer, victim: string, listens: bool)
    requires i < |s.packets| && s.packets[i].phase.Deciding?
    requires DestText(s.packets[i].dest) in s.cache || |s.cache| < MAX_CACHE || victim in s.cache
    ensures var d, k := DecisionUnder(st, s, s.packets[i].dest, found), DestText(s.packets[i].dest);
            var t := Apply(st, Apply(st, Apply(st, s, Decide(i, found, victim)), Lock(i, listens)), Finish(i));
            && i < |t.packets| && t.packets[i].phase == Fate(s, d, listens)
            && k in t.cache && t.cache[k] == d
  {
    var d := DecisionUnder(st, s, s.packets[i].dest, found);
    var t := Decided(st, s, i, found, victim);
    DecidedIs(st, s, i, found, victim);
    if d.Accepted? {
      AfterLock(t, i, d, listens);
    } else {
      AfterRelease(t, i, listens);
    }
  }

  lemma RunOne(st: Stream, es: seq<Event>, e: Event)
    ensures Run(st, es + [e]) == Apply(st, Run(st, es), e)
  {
    assert (es + [e])[..|es|] == es;
  }

  lemma RunThree(st: Stream, es: seq<Event>, a: Event, b: Event, c: Event)
    ensures Run(st, es + [a] + [b] + [c]) == Apply(st, Apply(st, Apply(st, Run(st, es), a), b), c)
  {
    RunOne(st, es, a);
    RunOne(st, es + [a], b);
    RunOne(st, es + [a] + [b], c);
  }

  /** In every run, a packet that is decided, on a new decision or on a cached one, and then goes
      its way undisturbed meets exactly that fate; its buffer is handed on or released once,
      and its decision is in the cache. */
  lemma PacketMeetsFate(st: Stream, es: seq<Event>, i: nat, found: Answer, victim: string, listens: bool)
    requires i < |Run(st, es).packets| && Run(st, es).packets[i].phase.Deciding?
    requires var s := Run(st, es);
             DestText(s.packets[i].dest) in s.cache || |s.cache| < MAX_CACHE || victim in s.cache
    ensures var s, t := Run(st, es), Run(st, es + [Decide(i, found, victim)] + [Lock(i, listens)] + [Finish(i)]);
            var d, k := DecisionUnder(st, s, s.packets[i].dest, found), DestText(s.packets[i].dest);
            && i < |t.packets| && t.packets[i].phase == Fate(s, d, listens)
            && t.packets[i].handovers == (if Fate(s, d, listens).Forwarded? then 1 else 0)
            && t.packets[i].releases == (if Fate(s, d, listens).Released? then 1 else 0)
            && k in t.cache && t.cache[k] == d
  {
    FateIs(st, Run(st, es), i, found, victim, listens);
    RunThree(st, es, Decide(i, found, victim), Lock(i, listens), Finish(i));
    PacketsAreSafe(st, es + [Decide(i, found, victim)] + [Lock(i, listens)] + [Finish(i)], i);
  }

  /** A step that drops packet `i`. */
  predicate Drops(st: Stream, s: State, e: Event, i: nat)
    requires i < |s.packets|
  {
    match s.packets[i].phase
    case Deciding =>
      && e.Decide? && e.i == i && !DecisionUnder(st, s, s.packets[i].dest, e.found).Accepted?
      && (DestText(s.packets[i].dest) in s.cache || |s.cache| < MAX_CACHE || e.victim in s.cache)
    case Locking(_, _) => e.Lock? && e.i == i && (s.closed || (s.socket.None? && !e.listens))
    case Comparing(o, _, _) => e == Finish(i) && s.socket != Some(o)
    case Released => true
    case Forwarded(_, _) => false
  }

  lemma DropsDecided(st: Stream, s: State, i: nat, found: Answer, victim: string)
    requires i < |s.packets|
    ensures |Decided(st, s, i, found, victim).packets| == |s.packets|
    ensures Decided(st, s, i, found, victim).packets[i].phase.Released? <==> Drops(st, s, Decide(i, found, victim), i)
  {
    if s.packets[i].phase.Deciding?
       && (DestText(s.packets[i].dest) in s.cache || |s.cache| < MAX_CACHE || victim in s.cache) {
      DecidedIs(st, s, i, found, victim);
    } else {
      assert Decided(st, s, i, found, victim) == s;
    }
  }

  lemma DropsLocked(st: Stream, s: State, i: nat, listens: bool)
    requires i < |s.packets|
    ensures |LockedOn(s, i, listens).packets| == |s.packets|
    ensures LockedOn(s, i, listens).packets[i].phase.Released? <==> Drops(st, s, Lock(i, listens), i)
  {
  }

  lemma DropsFinished(st: Stream, s: State, i: nat)
    requires i < |s.packets| && (s.packets[i].phase.Comparing? ==> s.socket == Some(s.packets[i].phase.bound))
    ensures |Finished(s, i).packets| == |s.packets|
    ensures Finished(s, i).packets[i].phase.Released? <==> Drops(st, s, Finish(i), i)
  {
  }

  predicate About(e: Event, i: nat) {
    (e.Decide? || e.Lock? || e.Finish?) && e.i == i
  }

  lemma DecidedOther(st: Stream, s: State, i: nat, found: Answer, victim: string, j: nat)
    requires i < |s.packets| && j < |s.packets| && j != i
    ensures |Decided(st, s, i, found, victim).packets| == |s.packets|
    ensures Decided(st, s, i, found, victim).packets[j] == s.packets[j]
  {
  }

  lemma OthersStay(st: Stream, s: State, e: Event, i: nat)
    requires i < |s.packets| && !About(e, i)
    ensures i < |Apply(st, s, e).packets| && Apply(st, s, e).packets[i] == s.packets[i]
  {
    if e.Decide? && e.i < |s.packets| { DecidedOther(st, s, e.i, e.found, e.victim, i); }
  }

  lemma DropsAt(st: Stream, s: State, e: Event, i: nat)
    requires i < |s.packets| && PacketOk(st, s, s.packets[i])
    ensures i < |Apply(st, s, e).packets| && (Apply(st, s, e).packets[i].phase.Released? <==> Drops(st, s, e, i))
  {
    if !About(e, i) {
      OthersStay(st, s, e, i);
    } else if e.Decide? {
      DropsDecided(st, s, i, e.found, e.victim);
    } else if e.Lock? {
      DropsLocked(st, s, i, e.listens);
    } else {
      DropsFinished(st, s, i);
    }
  }

  /** In every interleaving, a step drops a packet exactly when it decides it under a decision
      that is not accepted, finds the stream closed, cannot open the socket, or finds it bound
      to another outbound. */
  lemma PacketIsDroppedExactlyWhen(st: Stream, es: seq<Event>, e: Event, i: nat)
    requires i < |Run(st, es).packets|
    ensures i < |Run(st, es + [e]).packets|
    ensures Run(st, es + [e]).packets[i].phase.Released? <==> Drops(st, Run(st, es), e, i)
  {
    RouterRun(st, es);
    RunOne(st, es, e);
    assert PacketOk(st, Run(st, es), Run(st, es).packets[i]);
    DropsAt(st, Run(st, es), e, i);
  }

  // ---------- closing and reading ----------

  lemma ClosesNow(s: State, c: nat)
    requires SocketOk(s) && c < |s.closers| && s.closers[c] == Calling
    ensures var t := SocketClosed(CloseEntered(s, c), c);
            && t.closed && t.ready && |t.closers| == |s.closers| && t.closers[c] == Closed
            && (!s.closed ==> t.socketCloses == t.opens == s.opens)
  {
  }

  /** In every run, a call of Close leaves the stream closed and lets readers through, and the
      first one closes the socket if there is one. */
  lemma CloseCompletes(st: Stream, es: seq<Event>, c: nat)
    requires c < |Run(st, es).closers| && Run(st, es).closers[c] == Calling
    ensures var s, t := Run(st, es), Run(st, es + [CloseLocked(c)] + [CloseSocket(c)]);
            && t.closed && t.ready && c < |t.closers| && t.closers[c] == Closed
            && (!s.closed ==> t.socketCloses == t.opens == s.opens)
  {
    RouterRun(st, es);
    RunOne(st, es, CloseLocked(c));
    RunOne(st, es + [CloseLocked(c)], CloseSocket(c));
    ClosesNow(Run(st, es), c);
  }

  /** In every run, a blocked reader gets the socket if there is one, the end of the stream if it
      was closed without one, and stays blocked otherwise. */
  lemma ReaderIsLetThrough(st: Stream, es: seq<Event>, r: nat)
    requires r < |Run(st, es).readers| && Run(st, es).readers[r] == Blocked
    ensures var s, t := Run(st, es), Run(st, es + [ReadReady(r)]);
            r < |t.readers| && t.readers[r] == if s.socket.Some? then Reading else if s.closed then Ended else Blocked
  {
    RouterRun(st, es);
    RunOne(st, es, ReadReady(r));
  }
}
