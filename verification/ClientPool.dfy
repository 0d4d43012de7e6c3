/** The client's pool of idle sessions as a state machine. Calls of CreateStream, dying
    streams, dying sessions and the cleanup interleave freely; taking from the pool, putting
    back, a `dieOnce` and each check of a closed flag are single steps. A step that is not
    possible in a state leaves it unchanged, so every sequence of events is a run. */
module ClientPool {

  /** A lease is one call of CreateStream from the moment it has a session.
      `Live`: the stream is open; `hooked` once its die hook is installed.
      `Dying`: the stream's `dieOnce` has fired, the hook has not been looked at.
      `Returning`: the hook found session and client open and is about to put it back.
      `Over`: nothing left to do; `missed` if the hook was not there when it was looked for. */
  datatype Phase = Taken | Live(hooked: bool) | Dying(hooked: bool) | Returning | Over(missed: bool)
  datatype Lease = Lease(session: nat, phase: Phase, putBacks: nat)

  /** `closed`: the session's die channel; `unlisted`: its die hook has left the pool. */
  datatype Session = Session(closed: bool, unlisted: bool)

  /** Sessions are numbered in order of creation. The pool orders them newest first. */
  datatype State = State(
    reuse: bool,
    pool: set<nat>,
    sessions: seq<Session>,
    leases: seq<Lease>,
    doomed: set<nat>,
    clientClosed: bool)

  datatype Event =
    | TakeIdle
    | Dial
    | OpenStream(lease: nat)
    | OpenFails(lease: nat)
    | InstallHook(lease: nat)
    | StreamDies(lease: nat)
    | RunHook(lease: nat)
    | PutBack(lease: nat)
    | CloseSession(session: nat)
    | SessionHook(session: nat)
    | Cleanup(victims: set<nat>)
    | CloseClient

  function Start(reuse: bool): State {
    State(reuse, {}, [], [], {}, false)
  }

  // ---------- the steps ----------

  ghost predicate IsNewest(pool: set<nat>, q: nat) {
    q in pool && forall x :: x in pool ==> x <= q
  }

  lemma {:induction false} NewestExists(pool: set<nat>)
    requires pool != {}
    ensures exists q :: IsNewest(pool, q)
  {
    var x :| x in pool;
    if pool == {x} {
      assert IsNewest(pool, x);
    } else {
      NewestExists(pool - {x});
      var q :| IsNewest(pool - {x}, q);
      var top := if q < x then x else q;
      forall y | y in pool ensures y <= top {
        assert y == x || y in pool - {x};
      }
      assert IsNewest(pool, top);
    }
  }

  ghost function Newest(pool: set<nat>): nat
    requires pool != {}
  {
    NewestExists(pool);
    var q :| IsNewest(pool, q); q
  }

  ghost function Close(s: State, q: nat): State {
    if q < |s.sessions| then s.(sessions := s.sessions[q := s.sessions[q].(closed := true)]) else s
  }

  ghost function SetPhase(s: State, l: nat, p: Phase): State
    requires l < |s.leases|
  {
    s.(leases := s.leases[l := s.leases[l].(phase := p)])
  }

  ghost predicate IsClosed(s: State, q: nat) {
    q < |s.sessions| && s.sessions[q].closed
  }

  /** A step of lease `l`. */
  ghost function Leased(s: State, e: Event, l: nat): State
    requires l < |s.leases|
  {
    var Lease(q, phase, putBacks) := s.leases[l];
    match e
    case OpenStream(_) => if phase == Taken && !IsClosed(s, q) then SetPhase(s, l, Live(false)) else s
    case OpenFails(_) => if phase == Taken then Close(SetPhase(s, l, Over(false)), q) else s
    case InstallHook(_) =>
      if phase == Live(false) then SetPhase(s, l, Live(true))
      else if phase == Dying(false) then SetPhase(s, l, Dying(true))
      else s
    case StreamDies(_) => if phase.Live? then SetPhase(s, l, Dying(phase.hooked)) else s
    case RunHook(_) =>
      if !phase.Dying? then s
      else if !phase.hooked then SetPhase(s, l, Over(true))
      else if IsClosed(s, q) then SetPhase(s, l, Over(false))
      else if !s.reuse || s.clientClosed then Close(SetPhase(s, l, Over(false)), q)
      else SetPhase(s, l, Returning)
    case PutBack(_) =>
      if phase != Returning then s
      else s.(leases := s.leases[l := Lease(q, Over(false), putBacks + 1)], pool := s.pool + {q})
    case _ => s
  }

  ghost function Apply(s: State, e: Event): State {
    match e
    case TakeIdle =>
      if s.reuse && s.pool != {} then
        var q := Newest(s.pool);
        s.(pool := s.pool - {q}, leases := s.leases + [Lease(q, Taken, 0)])
      else s
    case Dial =>
      s.(sessions := s.sessions + [Session(false, false)], leases := s.leases + [Lease(|s.sessions|, Taken, 0)])
    case CloseSession(q) => Close(s, q)
    case SessionHook(q) =>
      if IsClosed(s, q)
      then s.(sessions := s.sessions[q := s.sessions[q].(unlisted := true)], pool := s.pool - {q}) else s
    case Cleanup(victims) => s.(pool := s.pool - victims, doomed := s.doomed + s.pool * victims)
    case CloseClient => s.(clientClosed := true)
    case _ => if e.lease < |s.leases| then Leased(s, e, e.lease) else s
  }

  ghost function Run(reuse: bool, es: seq<Event>): State {
    if es == [] then Start(reuse) else Apply(Run(reuse, es[..|es| - 1]), es[|es| - 1])
  }

  // ---------- exclusive leases ----------

  predicate Holds(s: State, l: int, q: nat) {
    0 <= l < |s.leases| && s.leases[l].session == q && !s.leases[l].phase.Over?
  }

  /** A session that is leased is leased once and is not in the pool. */
  ghost predicate Exclusive(s: State) {
    && (forall q :: q in s.pool ==> q < |s.sessions|)
    && (forall l :: 0 <= l < |s.leases| ==> s.leases[l].session < |s.sessions|)
    && (forall l, q :: Holds(s, l, q) ==> q !in s.pool)
    && (forall l, m, q :: Holds(s, l, q) && Holds(s, m, q) ==> l == m)
    && (forall l :: 0 <= l < |s.leases| ==> s.leases[l].putBacks <= if s.leases[l].phase.Over? then 1 else 0)
  }

  lemma HoldsAfter(s: State, t: State, l: nat)
    requires |t.leases| == |s.leases| && l < |s.leases|
    requires forall k :: 0 <= k < |s.leases| && k != l ==> t.leases[k] == s.leases[k]
    requires t.leases[l].session == s.leases[l].session
    requires s.leases[l].phase.Over? ==> t.leases[l].phase.Over?
    ensures forall k, q :: Holds(t, k, q) ==> Holds(s, k, q)
  {
  }

  lemma ExclusiveLeased(s: State, e: Event, l: nat)
    requires Exclusive(s) && l < |s.leases|
    ensures Exclusive(Leased(s, e, l))
  {
    var t := Leased(s, e, l);
    HoldsAfter(s, t, l);
    if e.PutBack? && s.leases[l].phase == Returning {
      var q := s.leases[l].session;
      assert Holds(s, l, q);
      assert forall k :: Holds(t, k, q) ==> k == l;
      assert !Holds(t, l, q);
    }
  }

  lemma ExclusiveNew(s: State, t: State, q: nat)
    requires Exclusive(s) && t.leases == s.leases + [Lease(q, Taken, 0)]
    requires |s.sessions| <= |t.sessions| && q < |t.sessions|
    requires t.pool <= s.pool && q !in t.pool
    requires forall l :: !Holds(s, l, q)
    ensures Exclusive(t)
  {
    assert forall l, x :: Holds(t, l, x) ==> (l == |s.leases| && x == q) || Holds(s, l, x);
  }

  lemma ExclusiveStep(s: State, e: Event)
    requires Exclusive(s)
    ensures Exclusive(Apply(s, e))
  {
    var t := Apply(s, e);
    match e
    case TakeIdle => if s.reuse && s.pool != {} { ExclusiveNew(s, t, Newest(s.pool)); }
    case Dial => ExclusiveNew(s, t, |s.sessions|);
    case CloseSession(_) => assert forall l, q :: Holds(t, l, q) ==> Holds(s, l, q);
    case SessionHook(_) => assert forall l, q :: Holds(t, l, q) ==> Holds(s, l, q);
    case Cleanup(_) => assert forall l, q :: Holds(t, l, q) ==> Holds(s, l, q);
    case CloseClient => assert forall l, q :: Holds(t, l, q) ==> Holds(s, l, q);
    case _ => if e.lease < |s.leases| { ExclusiveLeased(s, e, e.lease); }
  }

  lemma {:induction false} ExclusiveRun(reuse: bool, es: seq<Event>)
    ensures Exclusive(Run(reuse, es))
  {
    if es == [] {
    } else {
      ExclusiveRun(reuse, es[..|es| - 1]);
      ExclusiveStep(Run(reuse, es[..|es| - 1]), es[|es| - 1]);
    }
  }

  /** In every interleaving no session carries two live streams, no session with a live
      stream is in the pool, and each lease puts its session back at most once. */
  lemma LeasesAreExclusive(reuse: bool, es: seq<Event>)
    ensures var s := Run(reuse, es);
            && (forall l, m :: 0 <= l < m < |s.leases| && s.leases[l].phase.Live? && s.leases[m].phase.Live? ==>
                                 s.leases[l].session != s.leases[m].session)
            && (forall l :: 0 <= l < |s.leases| && s.leases[l].phase.Live? ==> s.leases[l].session !in s.pool)
            && (forall l :: 0 <= l < |s.leases| ==> s.leases[l].putBacks <= 1)
  {
    ExclusiveRun(reuse, es);
    var s := Run(reuse, es);
    forall l, m | 0 <= l < m < |s.leases| && s.leases[l].phase.Live? && s.leases[m].phase.Live?
      ensures s.leases[l].session != s.leases[m].session
    {
      assert Holds(s, l, s.leases[l].session) && Holds(s, m, s.leases[m].session);
    }
    forall l | 0 <= l < |s.leases| && s.leases[l].phase.Live? ensures s.leases[l].session !in s.pool {
      assert Holds(s, l, s.leases[l].session);
    }
  }

  // ---------- dead sessions in the pool ----------

  /** The insertion comes after the session's own die hook has left the pool. */
  predicate LateReturn(s: State, e: Event) {
    && e.PutBack? && e.lease < |s.leases| && s.leases[e.lease].phase == Returning
    && var q := s.leases[e.lease].session; q < |s.sessions| && s.sessions[q].unlisted
  }

  /** No session in the pool has already run its die hook. */
  ghost predicate PoolIsFresh(s: State) {
    forall q :: q in s.pool && q < |s.sessions| ==> !s.sessions[q].unlisted
  }

  /** A step leaves the pool fresh exactly when it is not a late return. */
  lemma FreshUnlessLate(s: State, e: Event)
    requires Exclusive(s) && PoolIsFresh(s)
    ensures PoolIsFresh(Apply(s, e)) <==> !LateReturn(s, e)
  {
    var t := Apply(s, e);
    if LateReturn(s, e) {
      var q := s.leases[e.lease].session;
      assert q in t.pool && t.sessions[q].unlisted;
    }
  }

  ghost predicate EverLate(reuse: bool, es: seq<Event>) {
    es != [] && (EverLate(reuse, es[..|es| - 1]) || LateReturn(Run(reuse, es[..|es| - 1]), es[|es| - 1]))
  }

  /** The pool is fresh after every step of the run. */
  ghost predicate AlwaysFresh(reuse: bool, es: seq<Event>) {
    PoolIsFresh(Run(reuse, es)) && (es != [] ==> AlwaysFresh(reuse, es[..|es| - 1]))
  }

  /** The pool is fresh at all times exactly when there is no late return. */
  lemma {:induction false} FreshRun(reuse: bool, es: seq<Event>)
    ensures AlwaysFresh(reuse, es) <==> !EverLate(reuse, es)
  {
    if es == [] {
    } else {
      var es' := es[..|es| - 1];
      FreshRun(reuse, es');
      ExclusiveRun(reuse, es');
      if AlwaysFresh(reuse, es') {
        FreshUnlessLate(Run(reuse, es'), es[|es| - 1]);
      }
    }
  }

  /** In every interleaving, whatever the pool holds, a lease becomes live only on a session
      that is not closed, and that no other lease holds and the pool does not. */
  lemma OpensOnlyOnOpenSessions(reuse: bool, es: seq<Event>, e: Event, l: nat)
    requires l < |Run(reuse, es).leases| && !Run(reuse, es).leases[l].phase.Live?
    requires l < |Apply(Run(reuse, es), e).leases| && Apply(Run(reuse, es), e).leases[l].phase.Live?
    ensures var s := Run(reuse, es); var q := s.leases[l].session;
            && q < |s.sessions| && !s.sessions[q].closed && q !in s.pool
            && forall m :: Holds(s, m, q) ==> m == l
  {
    ExclusiveRun(reuse, es);
    assert Holds(Run(reuse, es), l, Run(reuse, es).leases[l].session);
  }

  // ---------- no session is lost, with one exception ----------

  /** Where an open session can be: pooled, leased, taken out by the cleanup to be closed,
      or left behind by a stream that died before its hook was installed. */
  ghost predicate Located(s: State, q: nat) {
    || q in s.pool
    || q in s.doomed
    || (exists l :: Holds(s, l, q))
    || (exists l :: Missed(s, l, q))
  }

  predicate Missed(s: State, l: int, q: nat) {
    0 <= l < |s.leases| && s.leases[l].session == q && s.leases[l].phase == Over(true)
  }

  ghost predicate AllLocated(s: State) {
    forall q: nat :: q < |s.sessions| && !s.sessions[q].closed ==> Located(s, q)
  }

  lemma LocatedLeased(s: State, e: Event, l: nat, q: nat)
    requires Exclusive(s) && AllLocated(s) && l < |s.leases|
    requires q < |Leased(s, e, l).sessions| && !Leased(s, e, l).sessions[q].closed
    ensures Located(Leased(s, e, l), q)
  {
    var t := Leased(s, e, l);
    assert Located(s, q);
    if k :| Missed(s, k, q) {
      assert Missed(t, k, q);
    } else if k :| Holds(s, k, q) {
      if k != l || !t.leases[l].phase.Over? {
        assert Holds(t, k, q);
      } else if t.leases[l].phase == Over(true) {
        assert Missed(t, l, q);
      }
    }
  }

  lemma LocatedStep(s: State, e: Event)
    requires Exclusive(s) && AllLocated(s)
    ensures AllLocated(Apply(s, e))
  {
    var t := Apply(s, e);
    forall q: nat | q < |t.sessions| && !t.sessions[q].closed ensures Located(t, q) {
      if e.Dial? && q == |s.sessions| {
        assert Holds(t, |s.leases|, q);
      } else {
        assert Located(s, q);
        if e.TakeIdle? || e.Dial? || e.CloseSession? || e.SessionHook? || e.Cleanup? || e.CloseClient? {
          LocatedElsewhere(s, e, q);
        } else if e.lease < |s.leases| {
          LocatedLeased(s, e, e.lease, q);
        }
      }
    }
  }

  lemma LocatedElsewhere(s: State, e: Event, q: nat)
    requires Exclusive(s) && Located(s, q) && q < |s.sessions| && !Apply(s, e).sessions[q].closed
    requires e.TakeIdle? || e.Dial? || e.CloseSession? || e.SessionHook? || e.Cleanup? || e.CloseClient?
    ensures Located(Apply(s, e), q)
  {
    var t := Apply(s, e);
    if k :| Holds(s, k, q) {
      assert Holds(t, k, q);
    } else if k :| Missed(s, k, q) {
      assert Missed(t, k, q);
    } else if e.TakeIdle? && q !in t.pool && q !in t.doomed {
      assert Holds(t, |s.leases|, q);
    }
  }

  /** In every interleaving an open session is pooled, leased or about to be closed, except
      when its stream died before CreateStream had installed the stream's die hook. */
  lemma {:induction false} SessionsAreLocated(reuse: bool, es: seq<Event>)
    ensures AllLocated(Run(reuse, es))
  {
    if es == [] {
    } else {
      SessionsAreLocated(reuse, es[..|es| - 1]);
      ExclusiveRun(reuse, es[..|es| - 1]);
      LocatedStep(Run(reuse, es[..|es| - 1]), es[|es| - 1]);
    }
  }

  /** No lease holds the session, and it is neither pooled nor to be closed. */
  ghost predicate Forsaken(s: State, q: nat) {
    q !in s.pool && q !in s.doomed && forall l :: !Holds(s, l, q)
  }

  /** A session whose stream died too early is never used again, and one that the cleanup took
      out is neither. */
  ghost predicate Gone(s: State) {
    && (forall l, q :: Missed(s, l, q) ==> Forsaken(s, q))
    && (forall q :: q in s.doomed ==> q < |s.sessions| && q !in s.pool && forall l :: !Holds(s, l, q))
  }

  lemma GoneLeased(s: State, e: Event, l: nat)
    requires Exclusive(s) && Gone(s) && l < |s.leases|
    ensures Gone(Leased(s, e, l))
  {
    var t, q := Leased(s, e, l), s.leases[l].session;
    HoldsAfter(s, t, l);
    forall m, p | Missed(t, m, p) ensures Forsaken(t, p) {
      if Missed(s, m, p) {
        assert Forsaken(s, p);
        assert !Holds(s, l, p);
      } else {
        assert m == l && p == q && Holds(s, l, q);
        assert forall k :: Holds(t, k, q) ==> k == l;
      }
    }
    forall p | p in t.doomed ensures p !in t.pool {
      assert !Holds(s, l, p);
    }
  }

  lemma GoneTaken(s: State, t: State, q: nat)
    requires Gone(s) && t.leases == s.leases + [Lease(q, Taken, 0)] && |s.sessions| <= |t.sessions|
    requires t.pool == s.pool - {q} && t.doomed == s.doomed && q !in s.doomed && forall l :: !Missed(s, l, q)
    ensures Gone(t)
  {
    forall m, p | Missed(t, m, p) ensures Forsaken(t, p) {
      assert Missed(s, m, p);
      assert Forsaken(s, p);
      assert forall k :: Holds(t, k, p) ==> Holds(s, k, p);
    }
    assert forall k, p :: Holds(t, k, p) ==> Holds(s, k, p) || p == q;
  }

  lemma GoneElsewhere(s: State, t: State)
    requires Exclusive(s) && Gone(s) && t.leases == s.leases && |t.sessions| == |s.sessions| && t.pool <= s.pool
    requires s.doomed <= t.doomed && t.doomed <= s.doomed + (s.pool - t.pool)
    ensures Gone(t)
  {
    assert forall k, p :: Holds(t, k, p) <==> Holds(s, k, p);
    assert forall k, p :: Missed(t, k, p) <==> Missed(s, k, p);
  }

  lemma GoneStep(s: State, e: Event)
    requires Exclusive(s) && Gone(s)
    ensures Gone(Apply(s, e))
  {
    var t := Apply(s, e);
    match e
    case TakeIdle => if s.reuse && s.pool != {} { GoneTaken(s, t, Newest(s.pool)); }
    case Dial =>
      assert forall l, q: nat :: Missed(s, l, q) ==> s.leases[l].session == q && q < |s.sessions|;
      assert s.pool - {|s.sessions|} == s.pool;
      GoneTaken(s, t, |s.sessions|);
    case CloseSession(_) => GoneElsewhere(s, t);
    case SessionHook(_) => GoneElsewhere(s, t);
    case Cleanup(_) => GoneElsewhere(s, t);
    case CloseClient => GoneElsewhere(s, t);
    case _ => if e.lease < |s.leases| { GoneLeased(s, e, e.lease); }
  }

  lemma {:induction false} GoneRun(reuse: bool, es: seq<Event>)
    ensures Gone(Run(reuse, es))
  {
    if es == [] {
    } else {
      GoneRun(reuse, es[..|es| - 1]);
      ExclusiveRun(reuse, es[..|es| - 1]);
      GoneStep(Run(reuse, es[..|es| - 1]), es[|es| - 1]);
    }
  }

  /** In every interleaving an open session is lost track of exactly when a stream on it died
      before CreateStream had installed the stream's die hook. */
  lemma StrandedExactlyWhenMissed(reuse: bool, es: seq<Event>, q: nat)
    requires q < |Run(reuse, es).sessions| && !Run(reuse, es).sessions[q].closed
    ensures Forsaken(Run(reuse, es), q) <==> exists l :: Missed(Run(reuse, es), l, q)
  {
    SessionsAreLocated(reuse, es);
    GoneRun(reuse, es);
    assert Located(Run(reuse, es), q);
  }

  // ---------- both exceptions happen ----------

  lemma RunOne(reuse: bool, es: seq<Event>, e: Event)
    ensures Run(reuse, es + [e]) == Apply(Run(reuse, es), e)
  {
    assert (es + [e])[..|es|] == es;
  }

  lemma RunThree(reuse: bool, es: seq<Event>, a: Event, b: Event, c: Event) returns (es': seq<Event>)
    ensures Run(reuse, es') == Apply(Apply(Apply(Run(reuse, es), a), b), c)
  {
    RunOne(reuse, es, a);
    RunOne(reuse, es + [a], b);
    RunOne(reuse, es + [a] + [b], c);
    es' := es + [a] + [b] + [c];
  }

  /** A session that is closed and whose hook has run, waiting in the pool. */
  ghost predicate DeadInPool(s: State) {
    exists q :: q in s.pool && q < |s.sessions| && s.sessions[q].closed && s.sessions[q].unlisted
  }

  ghost function OneLease(session: Session, phase: Phase): State {
    State(true, {}, [session], [Lease(0, phase, 0)], {}, false)
  }

  lemma LeaseOpens()
    ensures Apply(Apply(Apply(Start(true), Dial), OpenStream(0)), InstallHook(0))
            == OneLease(Session(false, false), Live(true))
  {
  }

  lemma SessionDiesMeanwhile()
    ensures Apply(Apply(Apply(OneLease(Session(false, false), Live(true)), StreamDies(0)), RunHook(0)), CloseSession(0))
            == OneLease(Session(true, false), Returning)
  {
  }

  lemma DeadSessionReturns()
    ensures var s := OneLease(Session(true, false), Returning);
            DeadInPool(Apply(Apply(Apply(s, SessionHook(0)), PutBack(0)), CloseClient))
  {
    var t := Apply(Apply(Apply(OneLease(Session(true, false), Returning), SessionHook(0)), PutBack(0)), CloseClient);
    assert 0 in t.pool && t.sessions == [Session(true, true)];
  }

  /** A dead session can be pooled: it dies between the hook's check and its insertion. */
  lemma DeadSessionCanBePooled()
    ensures exists es :: DeadInPool(Run(true, es))
  {
    var es3 := RunThree(true, [], Dial, OpenStream(0), InstallHook(0));
    LeaseOpens();
    var es6 := RunThree(true, es3, StreamDies(0), RunHook(0), CloseSession(0));
    SessionDiesMeanwhile();
    var es9 := RunThree(true, es6, SessionHook(0), PutBack(0), CloseClient);
    DeadSessionReturns();
  }

  ghost predicate Stranded(s: State) {
    exists q :: 0 <= q < |s.sessions| && !s.sessions[q].closed && Forsaken(s, q)
  }

  lemma SessionCanBeStranded()
    ensures exists es :: Stranded(Run(true, es))
  {
    var es3 := RunThree(true, [], Dial, OpenStream(0), StreamDies(0));
    assert Run(true, es3).leases == [Lease(0, Dying(false), 0)];
    RunOne(true, es3, RunHook(0));
    var s := Run(true, es3 + [RunHook(0)]);
    assert s.leases == [Lease(0, Over(true), 0)] && s.sessions == [Session(false, false)];
    assert forall l :: !Holds(s, l, 0);
    assert Forsaken(s, 0);
  }

  // ---------- progress ----------

  /** When the stream of a lease dies on an open session, the session is pooled again, and if
      it is the newest there the next call gets it. */
  lemma DeadStreamFreesSession(s: State, l: nat)
    requires Exclusive(s) && s.reuse && !s.clientClosed && l < |s.leases| && s.leases[l].phase == Live(true)
    requires !IsClosed(s, s.leases[l].session)
    ensures var q := s.leases[l].session;
            var t := Leased(Leased(Leased(s, StreamDies(l), l), RunHook(l), l), PutBack(l), l);
            && t.pool == s.pool + {q} && t.leases == s.leases[l := Lease(q, Over(false), s.leases[l].putBacks + 1)]
            && ((forall x :: x in s.pool ==> x < q) ==>
                  Apply(t, TakeIdle).pool == s.pool && Apply(t, TakeIdle).leases == t.leases + [Lease(q, Taken, 0)])
  {
    var q := s.leases[l].session;
    var t := Leased(Leased(Leased(s, StreamDies(l), l), RunHook(l), l), PutBack(l), l);
    assert Holds(s, l, q);
    assert t.leases == s.leases[l := Lease(q, Over(false), s.leases[l].putBacks + 1)];
    if forall x :: x in s.pool ==> x < q {
      var n := Newest(t.pool);
      assert IsNewest(t.pool, n) && q in t.pool;
      assert t.pool - {q} == s.pool;
    }
  }

  // ---------- what the die hook does ----------

  lemma HookIs(s: State, l: nat)
    requires l < |s.leases| && s.leases[l].phase == Dying(true) && s.leases[l].session < |s.sessions|
    ensures var q, t := s.leases[l].session, Apply(s, RunHook(l));
            && t.pool == s.pool && |t.sessions| == |s.sessions| && |t.leases| == |s.leases|
            && (if s.sessions[q].closed then t.leases[l].phase == Over(false) && t.sessions == s.sessions
                else if s.reuse && !s.clientClosed then t.leases[l].phase == Returning && t.sessions == s.sessions
                else t.leases[l].phase == Over(false) && t.sessions[q].closed)
  {
  }

  /** In every interleaving, the die hook of a stream does nothing with a session that is closed;
      goes on to put an open one back if sessions are reused and the client is open; and
      otherwise closes it. */
  lemma HookDecides(reuse: bool, es: seq<Event>, l: nat)
    requires l < |Run(reuse, es).leases| && Run(reuse, es).leases[l].phase == Dying(true)
    ensures Run(reuse, es).leases[l].session < |Run(reuse, es).sessions|
    ensures var s, t := Run(reuse, es), Run(reuse, es + [RunHook(l)]);
            var q := s.leases[l].session;
            && t.pool == s.pool && |t.sessions| == |s.sessions| && |t.leases| == |s.leases|
            && (if s.sessions[q].closed then t.leases[l].phase == Over(false) && t.sessions == s.sessions
                else if s.reuse && !s.clientClosed then t.leases[l].phase == Returning && t.sessions == s.sessions
                else t.leases[l].phase == Over(false) && t.sessions[q].closed)
  {
    ExclusiveRun(reuse, es);
    RunOne(reuse, es, RunHook(l));
    HookIs(Run(reuse, es), l);
  }

  ghost predicate Unpooled(s: State) {
    !s.reuse && s.pool == {} && forall l :: 0 <= l < |s.leases| ==> s.leases[l].phase != Returning
  }

  lemma UnpooledStep(s: State, e: Event)
    requires Unpooled(s)
    ensures Unpooled(Apply(s, e))
  {
  }

  /** With reuse switched off no session is ever pooled or on its way to the pool. */
  lemma {:induction false} NoReuseNoPool(es: seq<Event>)
    ensures Unpooled(Run(false, es))
  {
    if es == [] {
    } else {
      NoReuseNoPool(es[..|es| - 1]);
      UnpooledStep(Run(false, es[..|es| - 1]), es[|es| - 1]);
    }
  }

  lemma {:induction false} ReuseStays(reuse: bool, es: seq<Event>)
    ensures Run(reuse, es).reuse == reuse
  {
    if es == [] {
    } else {
      ReuseStays(reuse, es[..|es| - 1]);
    }
  }

  /** In every interleaving, a call that finds the pool not empty leases its newest session. */
  lemma TakesNewest(es: seq<Event>)
    requires Run(true, es).pool != {}
    ensures exists q :: IsNewest(Run(true, es).pool, q) && Took(Run(true, es), Run(true, es + [TakeIdle]), q)
  {
    ReuseStays(true, es);
    RunOne(true, es, TakeIdle);
    var q := Newest(Run(true, es).pool);
    assert IsNewest(Run(true, es).pool, q) && Took(Run(true, es), Run(true, es + [TakeIdle]), q);
  }

  ghost predicate Took(s: State, t: State, q: nat) {
    t.pool == s.pool - {q} && t.leases == s.leases + [Lease(q, Taken, 0)] && t.sessions == s.sessions
  }

  /** In every interleaving, once the client is closed the die hook closes the session of a stream
      that has died, if it is open. */
  lemma ClosedClientClosesSessions(reuse: bool, es: seq<Event>, l: nat)
    requires l < |Run(reuse, es).leases| && Run(reuse, es).leases[l].phase == Dying(true)
    ensures var q, t := Run(reuse, es).leases[l].session, Run(reuse, es + [CloseClient] + [RunHook(l)]);
            && q < |t.sessions| && t.sessions[q].closed && t.pool == Run(reuse, es).pool
  {
    RunOne(reuse, es, CloseClient);
    HookDecides(reuse, es + [CloseClient], l);
  }

  /** In every interleaving, a cleanup takes its victims out of the pool, to be closed, and leaves
      the others there. */
  lemma CleanupTakesOut(reuse: bool, es: seq<Event>, victims: set<nat>)
    ensures var s, t := Run(reuse, es), Run(reuse, es + [Cleanup(victims)]);
            && t.pool == s.pool - victims && t.doomed == s.doomed + (s.pool * victims)
            && t.leases == s.leases && t.sessions == s.sessions
  {
    RunOne(reuse, es, Cleanup(victims));
  }
}
