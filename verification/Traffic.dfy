/** Traffic accounting per user id as a state machine. Sessions attach, detach and count
    without a common lock while a clear walks over the users in several steps. Each critical
    section and each atomic operation is one step; a step that is not possible in a state
    leaves it unchanged, so every sequence of events is a run. */
module Traffic {

  datatype Dir = Tx | Rx

  /** A `UserStat` object. */
  datatype User = User(id: string, tx: nat, rx: nat, sessions: set<nat>)

  datatype Report = Report(tx: nat, rx: nat)

  /** Where the clear is; it holds the registry lock from begin to end. `live` is whether the
      user had sessions when the clear looked. */
  datatype Phase =
    | NotClearing
    | Picking
    | Checked(id: string, live: bool)
    | HalfSwapped(id: string, live: bool, tx: nat)
    | Swapped(id: string, live: bool)

  datatype Key = Key(id: string, dir: Dir)

  /** `users` maps an id to its object. `results` and `report` are what finished clears and
      the running one return. `detaching` are detaches between their two critical sections.
      The last three count, per id and direction, the bytes added by attached sessions, by
      others, and those left in a counter that is no longer in the map. */
  datatype State = State(
    users: map<string, nat>,
    objects: seq<User>,
    detaching: set<(nat, nat)>,
    phase: Phase,
    pending: set<string>,
    report: map<string, Report>,
    results: seq<map<string, Report>>,
    attached: map<Key, nat>,
    late: map<Key, nat>,
    lost: map<Key, nat>)

  datatype Event =
    | Attach(id: string, session: nat)
    | DetachLookup(id: string, session: nat)
    | DetachRemove(user: nat, session: nat)
    | Add(user: nat, session: nat, dir: Dir, n: nat)
    | ClearBegin
    | ClearCheck(id: string)
    | ClearSwap
    | ClearDelete
    | ClearEnd

  const START := State(map[], [], {}, NotClearing, {}, map[], [], map[], map[], map[])

  // ---------- the steps ----------

  function Get(m: map<Key, nat>, k: Key): nat {
    if k in m then m[k] else 0
  }

  function Bump(m: map<Key, nat>, k: Key, n: nat): map<Key, nat> {
    m[k := Get(m, k) + n]
  }

  function Count(u: User, d: Dir): nat {
    if d == Tx then u.tx else u.rx
  }

  function Listed(s: State, h: nat): bool {
    h < |s.objects| && s.objects[h].id in s.users && s.users[s.objects[h].id] == h
  }

  function Attached(s: State, id: string, session: nat): State {
    var h := if id in s.users then s.users[id] else |s.objects|;
    var objects := if id in s.users then s.objects else s.objects + [User(id, 0, 0, {})];
    if h < |objects|
    then s.(users := s.users[id := h],
            objects := objects[h := objects[h].(sessions := objects[h].sessions + {session})])
    else s
  }

  function Counted(u: User, d: Dir, n: nat): User {
    if d == Tx then u.(tx := u.tx + n) else u.(rx := u.rx + n)
  }

  function Added(s: State, h: nat, session: nat, d: Dir, n: nat): State
    requires h < |s.objects|
  {
    var u := s.objects[h];
    var k := Key(u.id, d);
    s.(objects := s.objects[h := Counted(u, d, n)],
       lost := if Listed(s, h) then s.lost else Bump(s.lost, k, n),
       attached := if session in u.sessions then Bump(s.attached, k, n) else s.attached,
       late := if session in u.sessions then s.late else Bump(s.late, k, n))
  }

  function SwappedOut(s: State): State {
    match s.phase
    case Checked(id, live) =>
      if id in s.users && s.users[id] < |s.objects| then
        var h := s.users[id];
        s.(phase := HalfSwapped(id, live, s.objects[h].tx), objects := s.objects[h := s.objects[h].(tx := 0)])
      else s
    case HalfSwapped(id, live, tx) =>
      if id in s.users && s.users[id] < |s.objects| then
        var h := s.users[id];
        s.(phase := Swapped(id, live), objects := s.objects[h := s.objects[h].(rx := 0)],
           report := s.report[id := Report(tx, s.objects[h].rx)])
      else s
    case _ => s
  }

  function Deleted(s: State): State
    requires s.phase.Swapped?
  {
    var id := s.phase.id;
    if s.phase.live || id !in s.users || s.users[id] >= |s.objects| then s.(phase := Picking)
    else
      var u := s.objects[s.users[id]];
      s.(phase := Picking, users := s.users - {id},
         lost := Bump(Bump(s.lost, Key(id, Tx), u.tx), Key(id, Rx), u.rx))
  }

  function LookedUp(s: State, id: string, session: nat): State {
    if s.phase == NotClearing && id in s.users then s.(detaching := s.detaching + {(s.users[id], session)}) else s
  }

  function Removed(s: State, h: nat, session: nat): State {
    if (h, session) in s.detaching && h < |s.objects|
    then s.(detaching := s.detaching - {(h, session)},
            objects := s.objects[h := s.objects[h].(sessions := s.objects[h].sessions - {session})])
    else s
  }

  function Begun(s: State): State {
    if s.phase == NotClearing then s.(phase := Picking, pending := s.users.Keys, report := map[]) else s
  }

  function LookedAt(s: State, id: string): State {
    if s.phase == Picking && id in s.pending && id in s.users && s.users[id] < |s.objects|
    then s.(phase := Checked(id, s.objects[s.users[id]].sessions != {}), pending := s.pending - {id})
    else s
  }

  function Ended(s: State): State {
    if s.phase == Picking && s.pending == {}
    then s.(phase := NotClearing, results := s.results + [s.report], report := map[]) else s
  }

  function Apply(s: State, e: Event): State {
    match e
    case Attach(id, session) => if s.phase == NotClearing then Attached(s, id, session) else s
    case DetachLookup(id, session) => LookedUp(s, id, session)
    case DetachRemove(h, session) => Removed(s, h, session)
    case Add(h, session, d, n) => if h < |s.objects| then Added(s, h, session, d, n) else s
    case ClearBegin => Begun(s)
    case ClearCheck(id) => LookedAt(s, id)
    case ClearSwap => SwappedOut(s)
    case ClearDelete => if s.phase.Swapped? then Deleted(s) else s
    case ClearEnd => Ended(s)
  }

  function Run(es: seq<Event>): State {
    if es == [] then START else Apply(Run(es[..|es| - 1]), es[|es| - 1])
  }

  // ---------- what has been reported ----------

  function Entry(r: map<string, Report>, k: Key): nat {
    if k.id !in r then 0 else if k.dir == Tx then r[k.id].tx else r[k.id].rx
  }

  function Total(results: seq<map<string, Report>>, k: Key): nat {
    if results == [] then 0 else Total(results[..|results| - 1], k) + Entry(results[|results| - 1], k)
  }

  /** The bytes in results of clears, finished or running. */
  function Reported(s: State, k: Key): nat {
    Total(s.results, k) + Entry(s.report, k)
    + if s.phase.HalfSwapped? && k == Key(s.phase.id, Tx) then s.phase.tx else 0
  }

  /** The bytes in the counter the map has for the id. */
  function Current(s: State, k: Key): nat {
    if k.id in s.users && s.users[k.id] < |s.objects| then Count(s.objects[s.users[k.id]], k.dir) else 0
  }

  // ---------- the invariants ----------

  /** The map leads to objects of its ids, and an object with sessions is in the map. */
  ghost predicate Owned(s: State) {
    && (forall id :: id in s.users ==> s.users[id] < |s.objects| && s.objects[s.users[id]].id == id)
    && (forall h: nat :: h < |s.objects| && s.objects[h].sessions != {} ==> Listed(s, h))
    && (s.phase.Checked? || s.phase.HalfSwapped? || s.phase.Swapped? ==>
          && s.phase.id in s.users && s.phase.id !in s.pending
          && (!s.phase.live ==> s.objects[s.users[s.phase.id]].sessions == {}))
    && (s.phase.Checked? || s.phase.HalfSwapped? ==> s.phase.id !in s.report)
    && (s.phase != NotClearing ==> forall id :: id in s.pending ==> id in s.users && id !in s.report)
    && (s.phase == NotClearing ==> s.report == map[])
  }

  /** The counter of an offline user between its swap and its deletion from the map. */
  predicate Doomed(s: State, k: Key) {
    || (s.phase.HalfSwapped? && !s.phase.live && k == Key(s.phase.id, Tx))
    || (s.phase.Swapped? && !s.phase.live && k.id == s.phase.id)
  }

  /** Nothing is counted twice or dropped, and only late bytes can be lost. */
  predicate Balanced(s: State, k: Key) {
    && Reported(s, k) + Current(s, k) + Get(s.lost, k) == Get(s.attached, k) + Get(s.late, k)
    && Get(s.lost, k) + (if Doomed(s, k) then Current(s, k) else 0) <= Get(s.late, k)
  }

  // ---------- kept by each step ----------

  lemma OwnedAttached(s: State, id: string, session: nat)
    requires Owned(s) && s.phase == NotClearing
    ensures Owned(Attached(s, id, session))
  {
  }

  lemma OwnedDeleted(s: State)
    requires Owned(s) && s.phase.Swapped?
    ensures Owned(Deleted(s))
  {
  }

  /** Counting does not touch ownership. */
  lemma OwnedSame(s: State, t: State)
    requires Owned(s) && t.users == s.users && t.phase == s.phase && t.pending == s.pending && t.report == s.report
    requires |t.objects| == |s.objects|
    requires forall h :: 0 <= h < |s.objects| ==>
                           t.objects[h].id == s.objects[h].id && t.objects[h].sessions == s.objects[h].sessions
    ensures Owned(t)
  {
    forall h: nat | h < |t.objects| && t.objects[h].sessions != {} ensures Listed(t, h) {
      assert Listed(s, h);
    }
  }

  lemma OwnedAdded(s: State, h: nat, session: nat, d: Dir, n: nat)
    requires Owned(s) && h < |s.objects|
    ensures Owned(Added(s, h, session, d, n))
  {
    OwnedSame(s, Added(s, h, session, d, n));
  }

  lemma OwnedSwapped(s: State)
    requires Owned(s)
    ensures Owned(SwappedOut(s))
  {
  }

  lemma OwnedRemoved(s: State, h: nat, session: nat)
    requires Owned(s)
    ensures Owned(Removed(s, h, session))
  {
  }

  lemma OwnedLookedUp(s: State, id: string, session: nat)
    requires Owned(s)
    ensures Owned(LookedUp(s, id, session))
  {
    OwnedSame(s, LookedUp(s, id, session));
  }

  lemma OwnedClear(s: State, id: string)
    requires Owned(s)
    ensures Owned(Begun(s)) && Owned(LookedAt(s, id)) && Owned(Ended(s))
  {
  }

  lemma OwnedStep(s: State, e: Event)
    requires Owned(s)
    ensures Owned(Apply(s, e))
  {
    match e
    case Attach(id, session) => if s.phase == NotClearing { OwnedAttached(s, id, session); }
    case DetachLookup(id, session) => OwnedLookedUp(s, id, session);
    case DetachRemove(h, session) => OwnedRemoved(s, h, session);
    case Add(h, session, d, n) => if h < |s.objects| { OwnedAdded(s, h, session, d, n); }
    case ClearBegin => OwnedClear(s, "");
    case ClearCheck(id) => OwnedClear(s, id);
    case ClearSwap => OwnedSwapped(s);
    case ClearDelete => if s.phase.Swapped? { OwnedDeleted(s); }
    case ClearEnd => OwnedClear(s, "");
  }

  lemma BalancedAttached(s: State, id: string, session: nat, k: Key)
    requires Owned(s) && Balanced(s, k) && s.phase == NotClearing
    ensures Balanced(Attached(s, id, session), k)
  {
    assert Current(Attached(s, id, session), k) == Current(s, k);
  }

  lemma CurrentAdded(s: State, h: nat, session: nat, d: Dir, n: nat, k: Key)
    requires Owned(s) && h < |s.objects|
    ensures Current(Added(s, h, session, d, n), k)
            == Current(s, k) + (if Listed(s, h) && k == Key(s.objects[h].id, d) then n else 0)
  {
    if k.id in s.users {
      if s.users[k.id] == h {
        assert Current(Added(s, h, session, d, n), k) == Count(Counted(s.objects[h], d, n), k.dir);
      } else {
        assert Current(Added(s, h, session, d, n), k) == Count(s.objects[s.users[k.id]], k.dir);
      }
    }
  }

  lemma AttachedIsNotDoomed(s: State, h: nat, session: nat, d: Dir)
    requires Owned(s) && h < |s.objects| && session in s.objects[h].sessions
    ensures Listed(s, h) && !Doomed(s, Key(s.objects[h].id, d))
  {
  }

  lemma ReportedAdded(s: State, h: nat, session: nat, d: Dir, n: nat, k: Key)
    requires Owned(s) && h < |s.objects|
    ensures var t := Added(s, h, session, d, n); Reported(t, k) == Reported(s, k) && (Doomed(t, k) <==> Doomed(s, k))
    ensures session in s.objects[h].sessions ==> Get(Added(s, h, session, d, n).late, k) == Get(s.late, k)
    ensures session !in s.objects[h].sessions && k == Key(s.objects[h].id, d) ==>
              Get(Added(s, h, session, d, n).late, k) == Get(s.late, k) + n
    ensures k != Key(s.objects[h].id, d) ==> Get(Added(s, h, session, d, n).late, k) == Get(s.late, k)
  {
  }

  lemma BalancedAdded(s: State, h: nat, session: nat, d: Dir, n: nat, k: Key)
    requires Owned(s) && Balanced(s, k) && h < |s.objects|
    ensures Balanced(Added(s, h, session, d, n), k)
  {
    CurrentAdded(s, h, session, d, n, k);
    ReportedAdded(s, h, session, d, n, k);
    LostByAdd(s, h, session, d, n, k);
    AddedOnce(s, h, session, d, n, k);
    if session in s.objects[h].sessions {
      AttachedIsNotDoomed(s, h, session, d);
    }
  }

  lemma CurrentOthers(s: State, t: State, id: string, k: Key)
    requires Owned(s) && id in s.users && t.users == s.users && |t.objects| == |s.objects| && k.id != id
    requires forall h :: 0 <= h < |s.objects| && h != s.users[id] ==> t.objects[h] == s.objects[h]
    ensures Current(t, k) == Current(s, k)
  {
  }

  lemma BalancedSwapTx(s: State, k: Key)
    requires Owned(s) && Balanced(s, k) && s.phase.Checked?
    ensures Balanced(SwappedOut(s), k)
  {
    if k.id != s.phase.id { CurrentOthers(s, SwappedOut(s), s.phase.id, k); }
  }

  lemma BalancedSwapRx(s: State, k: Key)
    requires Owned(s) && Balanced(s, k) && s.phase.HalfSwapped?
    ensures Balanced(SwappedOut(s), k)
  {
    if k.id != s.phase.id { CurrentOthers(s, SwappedOut(s), s.phase.id, k); }
  }

  lemma BalancedSwapped(s: State, k: Key)
    requires Owned(s) && Balanced(s, k)
    ensures Balanced(SwappedOut(s), k)
  {
    if s.phase.Checked? {
      BalancedSwapTx(s, k);
    } else if s.phase.HalfSwapped? {
      BalancedSwapRx(s, k);
    }
  }

  lemma CurrentDeleted(s: State, k: Key)
    requires Owned(s) && s.phase.Swapped?
    ensures Current(Deleted(s), k) == (if !s.phase.live && k.id == s.phase.id then 0 else Current(s, k))
    ensures Reported(Deleted(s), k) == Reported(s, k) && !Doomed(Deleted(s), k)
  {
  }

  lemma BalancedDeleted(s: State, k: Key)
    requires Owned(s) && Balanced(s, k) && s.phase.Swapped?
    ensures Balanced(Deleted(s), k)
  {
    CurrentDeleted(s, k);
    LostByDelete(s, k);
    assert Deleted(s).attached == s.attached && Deleted(s).late == s.late;
  }

  lemma BalancedEnded(s: State, k: Key)
    requires Balanced(s, k)
    ensures Balanced(Ended(s), k)
  {
    assert (s.results + [s.report])[..|s.results|] == s.results;
  }

  // Steps that neither count nor report.

  lemma BalancedQuiet(s: State, session: nat, id: string, k: Key)
    requires Owned(s) && Balanced(s, k)
    ensures Balanced(LookedUp(s, id, session), k)
  {
  }

  lemma BalancedBegun(s: State, id: string, k: Key)
    requires Owned(s) && Balanced(s, k)
    ensures Balanced(Begun(s), k) && Balanced(LookedAt(s, id), k)
  {
  }

  lemma BalancedRemoved(s: State, h: nat, session: nat, k: Key)
    requires Balanced(s, k)
    ensures Balanced(Removed(s, h, session), k)
  {
    assert Current(Removed(s, h, session), k) == Current(s, k);
  }

  lemma BalancedStep(s: State, e: Event, k: Key)
    requires Owned(s) && Balanced(s, k)
    ensures Balanced(Apply(s, e), k)
  {
    match e
    case Attach(id, session) => if s.phase == NotClearing { BalancedAttached(s, id, session, k); }
    case DetachLookup(id, session) => BalancedQuiet(s, session, id, k);
    case DetachRemove(h, session) => BalancedRemoved(s, h, session, k);
    case Add(h, session, d, n) => if h < |s.objects| { BalancedAdded(s, h, session, d, n, k); }
    case ClearBegin => BalancedBegun(s, "", k);
    case ClearCheck(id) => BalancedBegun(s, id, k);
    case ClearSwap => BalancedSwapped(s, k);
    case ClearDelete => if s.phase.Swapped? { BalancedDeleted(s, k); }
    case ClearEnd => BalancedEnded(s, k);
  }

  // ---------- the theorems ----------

  lemma {:induction false} OwnedRun(es: seq<Event>)
    ensures Owned(Run(es))
  {
    if es == [] {
    } else {
      OwnedRun(es[..|es| - 1]);
      OwnedStep(Run(es[..|es| - 1]), es[|es| - 1]);
    }
  }

  lemma {:induction false} BalancedRun(es: seq<Event>, k: Key)
    ensures Balanced(Run(es), k)
  {
    if es == [] {
    } else {
      OwnedRun(es[..|es| - 1]);
      BalancedRun(es[..|es| - 1], k);
      BalancedStep(Run(es[..|es| - 1]), es[|es| - 1], k);
    }
  }

  // ---------- who is attached ----------

  /** Which sessions are attached to which ids, by what happened: an attach outside a clear, and
      no detach of that session, which acts on the user object in the map, since. */
  ghost function Joined(es: seq<Event>): set<(string, nat)> {
    if es == [] then {}
    else
      var es', e := es[..|es| - 1], es[|es| - 1];
      var s := Run(es');
      if e.Attach? && s.phase == NotClearing then Joined(es') + {(e.id, e.session)}
      else if e.DetachRemove? && (e.user, e.session) in s.detaching && Listed(s, e.user)
      then Joined(es') - {(s.objects[e.user].id, e.session)}
      else Joined(es')
  }

  predicate Counts(s: State, id: string, session: nat) {
    id in s.users && s.users[id] < |s.objects| && session in s.objects[s.users[id]].sessions
  }

  lemma CountsAttached(s: State, id: string, session: nat, id': string, session': nat)
    requires Owned(s)
    ensures Counts(Attached(s, id, session), id', session') <==>
            Counts(s, id', session') || (id' == id && session' == session)
  {
  }

  lemma CountsRemoved(s: State, h: nat, session: nat, id': string, session': nat)
    requires Owned(s)
    ensures Counts(Removed(s, h, session), id', session') <==>
            && Counts(s, id', session')
            && !((h, session) in s.detaching && Listed(s, h) && s.objects[h].id == id' && session' == session)
  {
  }

  lemma CountsDeleted(s: State, id: string, session: nat)
    requires Owned(s) && s.phase.Swapped?
    ensures Counts(Deleted(s), id, session) <==> Counts(s, id, session)
  {
  }

  lemma CountsSame(s: State, t: State, id: string, session: nat)
    requires t.users == s.users && |t.objects| == |s.objects|
    requires forall h :: 0 <= h < |s.objects| ==> t.objects[h].sessions == s.objects[h].sessions
    ensures Counts(t, id, session) <==> Counts(s, id, session)
  {
  }

  lemma CountsSwapped(s: State, id: string, session: nat)
    ensures Counts(SwappedOut(s), id, session) <==> Counts(s, id, session)
  {
    CountsSame(s, SwappedOut(s), id, session);
  }

  lemma CountsAdded(s: State, h: nat, adder: nat, d: Dir, n: nat, id: string, session: nat)
    requires h < |s.objects|
    ensures Counts(Added(s, h, adder, d, n), id, session) <==> Counts(s, id, session)
  {
    CountsSame(s, Added(s, h, adder, d, n), id, session);
  }

  lemma CountsStep(s: State, e: Event, id: string, session: nat)
    requires Owned(s) && !e.Attach? && !e.DetachRemove?
    ensures Counts(Apply(s, e), id, session) <==> Counts(s, id, session)
  {
    match e
    case DetachLookup(i, adder) => CountsSame(s, LookedUp(s, i, adder), id, session);
    case Add(h, adder, d, n) => if h < |s.objects| { CountsAdded(s, h, adder, d, n, id, session); }
    case ClearBegin => CountsSame(s, Begun(s), id, session);
    case ClearCheck(i) => CountsSame(s, LookedAt(s, i), id, session);
    case ClearSwap => CountsSwapped(s, id, session);
    case ClearDelete => if s.phase.Swapped? { CountsDeleted(s, id, session); }
    case ClearEnd => CountsSame(s, Ended(s), id, session);
  }

  /** In every interleaving the user object in the map for an id has exactly the sessions that
      are attached to the id. */
  lemma {:induction false} SessionsAreJoined(es: seq<Event>, id: string, session: nat)
    ensures (id, session) in Joined(es) <==> Counts(Run(es), id, session)
  {
    if es == [] {
    } else {
      var es', e := es[..|es| - 1], es[|es| - 1];
      SessionsAreJoined(es', id, session);
      OwnedRun(es');
      if e.Attach? {
        CountsAttached(Run(es'), e.id, e.session, id, session);
      } else if e.DetachRemove? {
        CountsRemoved(Run(es'), e.user, e.session, id, session);
      } else {
        CountsStep(Run(es'), e, id, session);
      }
    }
  }

  lemma RunOne(es: seq<Event>, e: Event)
    ensures Run(es + [e]) == Apply(Run(es), e)
  {
    assert (es + [e])[..|es|] == es;
  }

  /** In every interleaving, while a session is attached to an id, the map has one and the same
      user object for the id through every step, and the session is among its sessions: no
      counter of an attached session is ever orphaned. */
  lemma NoOrphanedCounters(es: seq<Event>, e: Event, id: string, session: nat)
    requires (id, session) in Joined(es)
    ensures Counts(Run(es), id, session)
    ensures id in Run(es + [e]).users && Run(es + [e]).users[id] == Run(es).users[id]
  {
    SessionsAreJoined(es, id, session);
    OwnedRun(es);
    RunOne(es, e);
    UserStays(Run(es), e, id, session);
  }

  lemma UserStays(s: State, e: Event, id: string, session: nat)
    requires Owned(s) && Counts(s, id, session)
    ensures id in Apply(s, e).users && Apply(s, e).users[id] == s.users[id]
  {
  }

  /** An id leaves the map only by a clear, and only while no session is attached to it. */
  lemma OnlyOfflineIdsAreDeleted(es: seq<Event>, e: Event, id: string)
    requires id in Run(es).users && id !in Run(es + [e]).users
    ensures e == ClearDelete && forall session: nat :: (id, session) !in Joined(es)
  {
    OwnedRun(es);
    RunOne(es, e);
    forall session: nat ensures (id, session) !in Joined(es) {
      SessionsAreJoined(es, id, session);
    }
  }

  /** In every run outside a clear, detaching an attached session ends its attachment. */
  lemma DetachEndsAttachment(es: seq<Event>, id: string, session: nat)
    requires (id, session) in Joined(es) && Run(es).phase == NotClearing
    ensures id in Run(es).users
    ensures Joined(es + [DetachLookup(id, session)] + [DetachRemove(Run(es).users[id], session)]) ==
            Joined(es) - {(id, session)}
  {
    SessionsAreJoined(es, id, session);
    OwnedRun(es);
    var h := Run(es).users[id];
    var es1 := es + [DetachLookup(id, session)];
    RunOne(es, DetachLookup(id, session));
    JoinedOne(es, DetachLookup(id, session));
    JoinedOne(es1, DetachRemove(h, session));
  }

  lemma JoinedOne(es: seq<Event>, e: Event)
    ensures var s := Run(es);
            Joined(es + [e]) ==
            if e.Attach? && s.phase == NotClearing then Joined(es) + {(e.id, e.session)}
            else if e.DetachRemove? && (e.user, e.session) in s.detaching && Listed(s, e.user)
            then Joined(es) - {(s.objects[e.user].id, e.session)}
            else Joined(es)
  {
    assert (es + [e])[..|es|] == es;
  }

  /** Conservation: in every interleaving the bytes in clear results and in the current
      counter, and the lost ones, make up all bytes added, each exactly once; only bytes
      added by a session that was not attached can be lost. */
  lemma TrafficIsConserved(es: seq<Event>, k: Key)
    ensures var s := Run(es);
            && Reported(s, k) + Current(s, k) + Get(s.lost, k) == Get(s.attached, k) + Get(s.late, k)
            && Get(s.lost, k) <= Get(s.late, k)
            && Reported(s, k) + Current(s, k) >= Get(s.attached, k)
            && (Get(s.late, k) == 0 ==> Reported(s, k) + Current(s, k) == Get(s.attached, k))
  {
    BalancedRun(es, k);
  }

  // ---------- exactly when bytes are lost ----------

  /** The bytes that a step adds to the traffic of an id. */
  function AddedBytes(s: State, e: Event, k: Key): nat {
    if e.Add? && e.user < |s.objects| && Key(s.objects[e.user].id, e.dir) == k then e.n else 0
  }

  /** The bytes that results of clears and the current counter show. */
  function Shown(s: State, k: Key): nat {
    Reported(s, k) + Current(s, k)
  }

  /** A step that loses bytes: it adds to a counter that is no longer in the map, or it deletes
      an offline user whose counter is not zero. */
  predicate LosesBytes(s: State, e: Event, k: Key) {
    || (AddedBytes(s, e, k) > 0 && !Listed(s, e.user))
    || (e.ClearDelete? && s.phase.Swapped? && !s.phase.live && s.phase.id == k.id && Current(s, k) > 0)
  }

  lemma AllAdded(s: State, e: Event, k: Key)
    ensures Get(Apply(s, e).attached, k) + Get(Apply(s, e).late, k) ==
            Get(s.attached, k) + Get(s.late, k) + AddedBytes(s, e, k)
  {
    if e.Add? {
      if e.user < |s.objects| { AddedOnce(s, e.user, e.session, e.dir, e.n, k); }
    } else {
      AddsNothing(s, e);
    }
  }

  lemma AddedOnce(s: State, h: nat, session: nat, d: Dir, n: nat, k: Key)
    requires h < |s.objects|
    ensures var t := Added(s, h, session, d, n);
            Get(t.attached, k) + Get(t.late, k) ==
            Get(s.attached, k) + Get(s.late, k) + if k == Key(s.objects[h].id, d) then n else 0
  {
  }

  predicate SameBytes(s: State, t: State) {
    t.attached == s.attached && t.late == s.late
  }

  lemma SessionsAddNothing(s: State, id: string, h: nat, session: nat)
    ensures SameBytes(s, Attached(s, id, session)) && SameBytes(s, LookedUp(s, id, session))
    ensures SameBytes(s, Removed(s, h, session))
  {
  }

  lemma ClearsAddNothing(s: State, id: string)
    ensures SameBytes(s, Begun(s)) && SameBytes(s, LookedAt(s, id))
    ensures SameBytes(s, SwappedOut(s)) && SameBytes(s, Ended(s))
    ensures s.phase.Swapped? ==> SameBytes(s, Deleted(s))
  {
  }

  lemma AddsNothing(s: State, e: Event)
    requires !e.Add?
    ensures SameBytes(s, Apply(s, e))
  {
    match e
    case Attach(id, session) => SessionsAddNothing(s, id, 0, session);
    case DetachLookup(id, session) => SessionsAddNothing(s, id, 0, session);
    case DetachRemove(h, session) => SessionsAddNothing(s, "", h, session);
    case ClearBegin => ClearsAddNothing(s, "");
    case ClearCheck(id) => ClearsAddNothing(s, id);
    case ClearSwap => ClearsAddNothing(s, "");
    case ClearDelete => ClearsAddNothing(s, "");
    case ClearEnd => ClearsAddNothing(s, "");
  }

  lemma LostByAdd(s: State, h: nat, session: nat, d: Dir, n: nat, k: Key)
    requires h < |s.objects|
    ensures Get(Added(s, h, session, d, n).lost, k) ==
            Get(s.lost, k) + if Listed(s, h) || k != Key(s.objects[h].id, d) then 0 else n
  {
  }

  lemma LostByDelete(s: State, k: Key)
    requires Owned(s) && s.phase.Swapped?
    ensures Get(Deleted(s).lost, k) == Get(s.lost, k) + if s.phase.live || k.id != s.phase.id then 0 else Current(s, k)
  {
  }

  lemma LostByStep(s: State, e: Event, k: Key)
    requires Owned(s)
    ensures Get(Apply(s, e).lost, k) >= Get(s.lost, k)
    ensures Get(Apply(s, e).lost, k) > Get(s.lost, k) <==> LosesBytes(s, e, k)
  {
    match e
    case Add(h, session, d, n) => if h < |s.objects| { LostByAdd(s, h, session, d, n, k); }
    case ClearDelete => if s.phase.Swapped? { LostByDelete(s, k); }
    case _ =>
  }

  /** A step shows at most the bytes it adds on top of those shown before, and exactly those
      unless it is one that loses bytes. */
  lemma ShownStep(s: State, e: Event, k: Key)
    requires Owned(s) && Balanced(s, k)
    ensures Shown(Apply(s, e), k) <= Shown(s, k) + AddedBytes(s, e, k)
    ensures Shown(Apply(s, e), k) == Shown(s, k) + AddedBytes(s, e, k) <==> !LosesBytes(s, e, k)
  {
    BalancedStep(s, e, k);
    AllAdded(s, e, k);
    LostByStep(s, e, k);
  }

  /** All bytes added during a run to the traffic of an id. */
  function AllBytes(es: seq<Event>, k: Key): nat {
    if es == [] then 0 else AllBytes(es[..|es| - 1], k) + AddedBytes(Run(es[..|es| - 1]), es[|es| - 1], k)
  }

  ghost predicate EverLoses(es: seq<Event>, k: Key) {
    es != [] && (EverLoses(es[..|es| - 1], k) || LosesBytes(Run(es[..|es| - 1]), es[|es| - 1], k))
  }

  /** In every interleaving clear results and the current counter show at most the bytes added,
      and all of them, each once, exactly when no step has lost any. */
  lemma {:induction false} BytesAreLostExactlyWhen(es: seq<Event>, k: Key)
    ensures Shown(Run(es), k) <= AllBytes(es, k)
    ensures Shown(Run(es), k) == AllBytes(es, k) <==> !EverLoses(es, k)
  {
    if es == [] {
    } else {
      var es' := es[..|es| - 1];
      BytesAreLostExactlyWhen(es', k);
      OwnedRun(es');
      BalancedRun(es', k);
      ShownStep(Run(es'), es[|es| - 1], k);
    }
  }

  // ---------- bytes of attached sessions ----------

  /** The bytes that a step adds for a session attached to the id. */
  ghost function AttachedBytes(es: seq<Event>, e: Event, k: Key): nat {
    if e.Add? && Listed(Run(es), e.user) && (k.id, e.session) in Joined(es)
    then AddedBytes(Run(es), e, k) else 0
  }

  ghost function AllAttachedBytes(es: seq<Event>, k: Key): nat {
    if es == [] then 0 else AllAttachedBytes(es[..|es| - 1], k) + AttachedBytes(es[..|es| - 1], es[|es| - 1], k)
  }

  lemma CountedAttached(s: State, h: nat, session: nat, d: Dir, n: nat, k: Key)
    requires Owned(s) && h < |s.objects|
    ensures Get(Added(s, h, session, d, n).attached, k) ==
            Get(s.attached, k)
            + if k == Key(s.objects[h].id, d) && Listed(s, h) && Counts(s, k.id, session) then n else 0
  {
  }

  lemma AttachedStep(es: seq<Event>, e: Event, k: Key)
    ensures Get(Apply(Run(es), e).attached, k) == Get(Run(es).attached, k) + AttachedBytes(es, e, k)
  {
    OwnedRun(es);
    if e.Add? {
      SessionsAreJoined(es, k.id, e.session);
      if e.user < |Run(es).objects| { CountedAttached(Run(es), e.user, e.session, e.dir, e.n, k); }
    } else {
      AddsNothing(Run(es), e);
    }
  }

  lemma {:induction false} AllAttachedBytesAre(es: seq<Event>, k: Key)
    ensures AllAttachedBytes(es, k) == Get(Run(es).attached, k)
  {
    if es == [] {
    } else {
      AllAttachedBytesAre(es[..|es| - 1], k);
      AttachedStep(es[..|es| - 1], es[|es| - 1], k);
    }
  }

  /** In every interleaving, clear results and the current counter show all bytes that were
      added by sessions while they were attached. */
  lemma AttachedBytesAreShown(es: seq<Event>, k: Key)
    ensures Shown(Run(es), k) >= AllAttachedBytes(es, k)
  {
    AllAttachedBytesAre(es, k);
    BalancedRun(es, k);
  }

  // ---------- late bytes can be lost in both ways ----------

  lemma RunThree(es: seq<Event>, a: Event, b: Event, c: Event) returns (es': seq<Event>)
    ensures Run(es') == Apply(Apply(Apply(Run(es), a), b), c)
  {
    RunOne(es, a);
    RunOne(es + [a], b);
    RunOne(es + [a] + [b], c);
    es' := es + [a] + [b] + [c];
  }

  lemma GoesOffline(s: State)
    requires s == START
    ensures Apply(Apply(Apply(s, Attach("u", 0)), DetachLookup("u", 0)), DetachRemove(0, 0))
            == START.(users := map["u" := 0], objects := [User("u", 0, 0, {})])
  {
  }

  lemma IsCleared(s: State)
    requires s == START.(users := map["u" := 0], objects := [User("u", 0, 0, {})])
    ensures Apply(Apply(Apply(s, ClearBegin), ClearCheck("u")), ClearSwap)
            == s.(phase := HalfSwapped("u", false, 0), pending := {})
  {
    assert map["u" := 0].Keys - {"u"} == {};
  }

  lemma CountsLate(s: State, k: Key)
    requires s.users == map["u" := 0] && s.objects == [User("u", 0, 0, {})] && s.phase == HalfSwapped("u", false, 0)
    requires k == Key("u", Tx) && Get(s.late, k) == 0 && Get(s.lost, k) == 0
    ensures var t := Apply(Apply(Apply(s, ClearSwap), Add(0, 0, Tx, 5)), ClearDelete);
            Get(t.late, k) == 5 && Get(t.lost, k) == 5 && t.attached == s.attached
  {
    var t1 := Apply(s, ClearSwap);
    assert t1.phase == Swapped("u", false) && t1.users == s.users && t1.objects == s.objects;
    assert t1.late == s.late && t1.lost == s.lost;
    var t2 := Apply(t1, Add(0, 0, Tx, 5));
    assert Listed(t1, 0) && t2.phase == t1.phase && t2.users == s.users && t2.objects == [User("u", 5, 0, {})];
    assert Get(t2.late, k) == 5 && t2.lost == s.lost;
  }

  /** A run with bytes added of which none is shown. */
  ghost predicate AllLost(es: seq<Event>, k: Key) {
    AllBytes(es, k) > 0 && Shown(Run(es), k) == 0
  }

  lemma {:induction false} AllBytesIs(es: seq<Event>, k: Key)
    ensures AllBytes(es, k) == Get(Run(es).attached, k) + Get(Run(es).late, k)
  {
    if es == [] {
    } else {
      AllBytesIs(es[..|es| - 1], k);
      AllAdded(Run(es[..|es| - 1]), es[|es| - 1], k);
    }
  }

  /** Bytes counted by a session after its detach, while a clear is between reading and
      deleting its user, appear in no result and in no counter. */
  lemma LateBytesCanBeLost()
    ensures exists es :: AllLost(es, Key("u", Tx))
  {
    var k := Key("u", Tx);
    GoesOffline(START);
    var es3 := RunThree([], Attach("u", 0), DetachLookup("u", 0), DetachRemove(0, 0));
    IsCleared(Run(es3));
    var es6 := RunThree(es3, ClearBegin, ClearCheck("u"), ClearSwap);
    CountsLate(Run(es6), k);
    var es9 := RunThree(es6, ClearSwap, Add(0, 0, Tx, 5), ClearDelete);
    ShowsNothing(es9, k);
  }

  lemma ShowsNothing(es: seq<Event>, k: Key)
    requires Get(Run(es).late, k) == Get(Run(es).lost, k) > 0 && Get(Run(es).attached, k) == 0
    ensures AllLost(es, k)
  {
    BalancedRun(es, k);
    AllBytesIs(es, k);
  }

  lemma IsForgotten(s: State)
    requires s.users == map["u" := 0] && s.objects == [User("u", 0, 0, {})] && s.phase == HalfSwapped("u", false, 0)
    requires s.pending == {}
    ensures var t := Apply(Apply(Apply(s, ClearSwap), ClearDelete), ClearEnd);
            && t.users == map[] && t.objects == s.objects && t.phase == NotClearing
            && t.attached == s.attached && t.late == s.late
            && (forall k :: Get(t.lost, k) == Get(s.lost, k))
  {
    var t1 := Apply(s, ClearSwap);
    assert t1.phase == Swapped("u", false) && t1.users == s.users && t1.objects == s.objects && t1.pending == {};
    var t2 := Apply(t1, ClearDelete);
    assert t2.phase == Picking && t2.users == map[];
  }

  lemma CountsForgotten(s: State, k: Key)
    requires s.users == map[] && s.objects == [User("u", 0, 0, {})] && k == Key("u", Tx)
    requires Get(s.attached, k) == Get(s.late, k) == Get(s.lost, k) == 0
    ensures var t := Apply(s, Add(0, 0, Tx, 5)); Get(t.late, k) == Get(t.lost, k) == 5 && Get(t.attached, k) == 0
  {
  }

  /** A run after which user `u` is forgotten and nothing has been counted. */
  lemma ForgetsUser() returns (es: seq<Event>)
    ensures var s, k := Run(es), Key("u", Tx);
            && s.users == map[] && s.objects == [User("u", 0, 0, {})] && s.phase == NotClearing
            && Get(s.attached, k) == Get(s.late, k) == Get(s.lost, k) == 0
  {
    GoesOffline(START);
    var es3 := RunThree([], Attach("u", 0), DetachLookup("u", 0), DetachRemove(0, 0));
    IsCleared(Run(es3));
    var es6 := RunThree(es3, ClearBegin, ClearCheck("u"), ClearSwap);
    IsForgotten(Run(es6));
    es := RunThree(es6, ClearSwap, ClearDelete, ClearEnd);
  }

  /** So do bytes counted after a whole clear has forgotten the user, with no clear about. */
  lemma ForgottenBytesAreLost()
    ensures exists es :: Run(es).phase == NotClearing && AllLost(es + [Add(0, 0, Tx, 5)], Key("u", Tx))
  {
    var es := ForgetsUser();
    CountsForgotten(Run(es), Key("u", Tx));
    RunOne(es, Add(0, 0, Tx, 5));
    ShowsNothing(es + [Add(0, 0, Tx, 5)], Key("u", Tx));
  }

  // ---------- what a clear reports ----------

  lemma ClearRound(s: State, id: string)
    requires Owned(s) && s.phase == Picking && id in s.pending
    ensures var u := s.objects[s.users[id]];
            var t := Deleted(SwappedOut(SwappedOut(LookedAt(s, id))));
            && t.report == s.report[id := Report(u.tx, u.rx)] && t.results == s.results && t.phase == Picking
            && Current(t, Key(id, Tx)) == Current(t, Key(id, Rx)) == 0
            && (id in t.users <==> u.sessions != {}) && t.pending == s.pending - {id}
  {
    var h := s.users[id];
    var u := s.objects[h];
    var t1 := LookedAt(s, id);
    assert t1.phase == Checked(id, u.sessions != {});
    var t3 := SwappedOut(SwappedOut(t1));
    assert t3.objects == s.objects[h := User(u.id, 0, 0, u.sessions)] && t3.users == s.users;
    assert t3.phase == Swapped(id, u.sessions != {});
  }

  lemma RoundReports(s: State, t: State, id: string, d: Dir)
    requires Owned(s) && s.phase == Picking && t.phase == Picking && id in s.pending && t.results == s.results
    requires t.report == s.report[id := Report(s.objects[s.users[id]].tx, s.objects[s.users[id]].rx)]
    ensures Reported(t, Key(id, d)) == Reported(s, Key(id, d)) + Current(s, Key(id, d))
  {
  }

  lemma RoundApplied(s: State, id: string)
    requires Owned(s) && s.phase == Picking && id in s.pending
    ensures SwappedOut(SwappedOut(LookedAt(s, id))).phase.Swapped?
    ensures Apply(Apply(Apply(Apply(s, ClearCheck(id)), ClearSwap), ClearSwap), ClearDelete)
            == Deleted(SwappedOut(SwappedOut(LookedAt(s, id))))
  {
  }

  lemma ClearRoundApplied(s: State, id: string, d: Dir)
    requires Owned(s) && s.phase == Picking && id in s.pending
    ensures var t, k := Apply(Apply(Apply(Apply(s, ClearCheck(id)), ClearSwap), ClearSwap), ClearDelete), Key(id, d);
            && Reported(t, k) == Reported(s, k) + Current(s, k) && Current(t, k) == 0
            && (id in t.users <==> s.objects[s.users[id]].sessions != {})
  {
    ClearRound(s, id);
    RoundApplied(s, id);
    RoundReports(s, Deleted(SwappedOut(SwappedOut(LookedAt(s, id)))), id, d);
  }

  lemma RunFour(es: seq<Event>, a: Event, b: Event, c: Event, d: Event) returns (es': seq<Event>)
    ensures es' == es + [a] + [b] + [c] + [d] && Run(es') == Apply(Apply(Apply(Apply(Run(es), a), b), c), d)
  {
    RunOne(es, a);
    RunOne(es + [a], b);
    RunOne(es + [a] + [b], c);
    RunOne(es + [a] + [b] + [c], d);
    es' := es + [a] + [b] + [c] + [d];
  }

  /** In every run, a round of a clear that nothing interrupts moves the whole counter of a
      user into the clear's result, and forgets the user exactly when it has no session. */
  lemma ClearReportsUser(es: seq<Event>, id: string, d: Dir)
    requires Run(es).phase == Picking && id in Run(es).pending
    ensures id in Run(es).users && Run(es).users[id] < |Run(es).objects|
    ensures var s, t, k := Run(es), Run(es + [ClearCheck(id)] + [ClearSwap] + [ClearSwap] + [ClearDelete]), Key(id, d);
            && Reported(t, k) == Reported(s, k) + Current(s, k) && Current(t, k) == 0
            && (id in t.users <==> s.objects[s.users[id]].sessions != {})
  {
    OwnedRun(es);
    var es' := RunFour(es, ClearCheck(id), ClearSwap, ClearSwap, ClearDelete);
    ClearRoundApplied(Run(es), id, d);
  }

  // ---------- a clear visits everybody ----------

  /** The ids in the map when the running clear, or the last one, began. */
  ghost function Known(es: seq<Event>): set<string> {
    if es == [] then {}
    else if es[|es| - 1].ClearBegin? && Run(es[..|es| - 1]).phase == NotClearing then Run(es[..|es| - 1]).users.Keys
    else Known(es[..|es| - 1])
  }

  function UnderWay(p: Phase): set<string> {
    if p.Checked? || p.HalfSwapped? then {p.id} else {}
  }

  ghost predicate Visiting(s: State, known: set<string>) {
    s.phase != NotClearing ==> known == s.pending + s.report.Keys + UnderWay(s.phase)
  }

  lemma VisitingStep(s: State, e: Event, known: set<string>)
    requires Owned(s) && Visiting(s, known) && !(e.ClearBegin? && s.phase == NotClearing)
    ensures Visiting(Apply(s, e), known)
  {
  }

  lemma {:induction false} VisitingRun(es: seq<Event>)
    ensures Visiting(Run(es), Known(es))
  {
    if es == [] {
    } else {
      var es', e := es[..|es| - 1], es[|es| - 1];
      VisitingRun(es');
      OwnedRun(es');
      if !(e.ClearBegin? && Run(es').phase == NotClearing) {
        VisitingStep(Run(es'), e, Known(es'));
      }
    }
  }

  /** In every interleaving, the result of a clear has an entry for exactly the ids that were in
      the map when it began. */
  lemma ClearIsComplete(es: seq<Event>)
    requires |Run(es + [ClearEnd]).results| > |Run(es).results|
    ensures var results := Run(es + [ClearEnd]).results;
            |results| == |Run(es).results| + 1 && results[|results| - 1].Keys == Known(es)
  {
    RunOne(es, ClearEnd);
    VisitingRun(es);
  }
}
