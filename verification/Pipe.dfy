/** The in-memory pipe of a stream as a state machine. Any number of writers and readers
    meet in rendezvous; either side may be closed and either deadline may pass at any time.
    A step that is not possible in a state leaves it unchanged, so every sequence of events
    is a run. */
module Pipe {
  import opened Sequences
  import opened Frames

  datatype Error = Eof | ClosedPipe | DeadlineExceeded | Other(code: int)
  datatype Stored = Nothing | Stored(err: Error)
  datatype Outcome = Success | Failure(err: Error)

  /** A call of Write. `Queued` waits for the write lock; `Offering` holds it and offers the
      bytes from `count` on; `Acking` handed `taken` of them to a reader, who has not
      reported back yet. */
  datatype WritePhase = Entering | Queued | Offering | Acking(taken: nat) | Returned(outcome: Outcome)
  datatype Write = Write(data: seq<byte>, count: nat, phase: WritePhase)

  /** A call of Read into a buffer of size `room`. `copied` is the index of its transfer; a
      reader that is `Reporting` has not yet handed the number of bytes to a writer. */
  datatype ReadPhase = Starting | Waiting | Reporting(taken: nat, copied: nat) | Got(copied: nat) | Refused(err: Error)
  datatype Read = Read(room: nat, phase: ReadPhase)

  /** `order`: the writes in the order they got the lock; `holder`: whether the last of them
      has it still; `log`: the bytes of each transfer, in order, and `from` their writes. */
  datatype State = State(
    writes: seq<Write>,
    readers: seq<Read>,
    order: seq<nat>,
    holder: bool,
    log: seq<seq<byte>>,
    from: seq<nat>,
    done: bool,
    rerr: Stored,
    werr: Stored)

  datatype Event =
    | CallWrite(data: seq<byte>)
    | EnterWrite(w: nat, expired: bool)
    | LockWrite(w: nat)
    | Transfer(w: nat, r: nat)
    | Report(w: nat, r: nat)
    | AbortWrite(w: nat, expired: bool)
    | CallRead(room: nat)
    | EnterRead(r: nat, expired: bool)
    | AbortRead(r: nat, expired: bool)
    | StoreReadError(err: Stored)
    | StoreWriteError(err: Stored)
    | CloseDone

  const START := State([], [], [], false, [], [], false, Nothing, Nothing)

  // ---------- the steps ----------

  function Store(old_: Stored, err: Error): Stored {
    if old_ == Nothing then Stored(err) else old_
  }

  function ReadCloseError(s: State): Error {
    if s.rerr == Nothing && s.werr.Stored? then s.werr.err else ClosedPipe
  }

  function WriteCloseError(s: State): Error {
    if s.werr == Nothing && s.rerr.Stored? then s.rerr.err else ClosedPipe
  }

  function SetWrite(s: State, w: nat, x: Write): State
    requires w < |s.writes|
  {
    s.(writes := s.writes[w := x])
  }

  function SetRead(s: State, r: nat, p: ReadPhase): State
    requires r < |s.readers|
  {
    s.(readers := s.readers[r := s.readers[r].(phase := p)])
  }

  function Entered(s: State, w: nat, expired: bool): State
    requires w < |s.writes|
  {
    var x := s.writes[w];
    if x.phase != Entering then s
    else SetWrite(s, w, x.(phase := if expired then Returned(Failure(DeadlineExceeded))
                                    else if s.done then Returned(Failure(WriteCloseError(s)))
                                    else Queued))
  }

  function Locked(s: State, w: nat): State
    requires w < |s.writes|
  {
    if s.writes[w].phase != Queued || s.holder then s
    else SetWrite(s, w, s.writes[w].(phase := Offering)).(order := s.order + [w], holder := true)
  }

  function Min(a: nat, b: nat): nat {
    if a < b then a else b
  }

  /** The rendezvous: a waiting reader copies what fits of the bytes on offer. */
  function Transferred(s: State, w: nat, r: nat): State
    requires w < |s.writes| && r < |s.readers|
  {
    var x := s.writes[w];
    if x.phase != Offering || s.readers[r].phase != Waiting || x.count > |x.data| then s
    else
      var n := Min(s.readers[r].room, |x.data| - x.count);
      SetRead(SetWrite(s, w, x.(phase := Acking(n))), r, Reporting(n, |s.log|))
      .(log := s.log + [x.data[x.count..x.count + n]], from := s.from + [w])
  }

  /** A reader's number of bytes reaches a writer that waits for one, whichever it is; the
      writer goes on, or returns if nothing is left. */
  function Reported(s: State, w: nat, r: nat): State
    requires w < |s.writes| && r < |s.readers|
  {
    var x := s.writes[w];
    if !x.phase.Acking? || !s.readers[r].phase.Reporting? then s
    else
      var count := x.count + s.readers[r].phase.taken;
      var s' := SetRead(s, r, Got(s.readers[r].phase.copied));
      if count < |x.data| then SetWrite(s', w, x.(count := count, phase := Offering))
      else SetWrite(s', w, x.(count := count, phase := Returned(Success))).(holder := false)
  }

  function WriteAborted(s: State, w: nat, expired: bool): State
    requires w < |s.writes|
  {
    var x := s.writes[w];
    if x.phase != Offering || !(s.done || expired) then s
    else SetWrite(s, w, x.(phase := Returned(Failure(if expired then DeadlineExceeded else WriteCloseError(s)))))
         .(holder := false)
  }

  function ReadStopped(s: State, r: nat, expired: bool, from: ReadPhase): State
    requires r < |s.readers|
  {
    if s.readers[r].phase != from then s
    else if expired then SetRead(s, r, Refused(DeadlineExceeded))
    else if s.done then SetRead(s, r, Refused(ReadCloseError(s)))
    else if from == Starting then SetRead(s, r, Waiting)
    else s
  }

  function Apply(s: State, e: Event): State {
    match e
    case CallWrite(data) => s.(writes := s.writes + [Write(data, 0, Entering)])
    case EnterWrite(w, expired) => if w < |s.writes| then Entered(s, w, expired) else s
    case LockWrite(w) => if w < |s.writes| then Locked(s, w) else s
    case Transfer(w, r) => if w < |s.writes| && r < |s.readers| then Transferred(s, w, r) else s
    case Report(w, r) => if w < |s.writes| && r < |s.readers| then Reported(s, w, r) else s
    case AbortWrite(w, expired) => if w < |s.writes| then WriteAborted(s, w, expired) else s
    case CallRead(room) => s.(readers := s.readers + [Read(room, Starting)])
    case EnterRead(r, expired) => if r < |s.readers| then ReadStopped(s, r, expired, Starting) else s
    case AbortRead(r, expired) => if r < |s.readers| then ReadStopped(s, r, expired, Waiting) else s
    case StoreReadError(err) => s.(rerr := Store(s.rerr, if err.Stored? then err.err else ClosedPipe))
    case StoreWriteError(err) => s.(werr := Store(s.werr, if err.Stored? then err.err else Eof))
    case CloseDone => if s.rerr.Stored? || s.werr.Stored? then s.(done := true) else s
  }

  function Run(es: seq<Event>): State {
    if es == [] then START else Apply(Run(es[..|es| - 1]), es[|es| - 1])
  }

  // ---------- what was delivered ----------

  /** How much of a write has been handed to readers. */
  function Consumed(x: Write): nat {
    x.count + if x.phase.Acking? then x.phase.taken else 0
  }

  predicate Sound(x: Write) {
    && Consumed(x) <= |x.data|
    && (x.phase == Returned(Success) ==> x.count == |x.data|)
    && (x.phase.Entering? || x.phase.Queued? ==> x.count == 0)
  }

  predicate AllSound(writes: seq<Write>) {
    forall w :: 0 <= w < |writes| ==> Sound(writes[w])
  }

  predicate InRange(order: seq<nat>, n: nat) {
    forall i :: 0 <= i < |order| ==> order[i] < n
  }

  /** The consumed parts of the writes, in lock order. */
  function Prefixes(writes: seq<Write>, order: seq<nat>): seq<byte>
    requires AllSound(writes) && InRange(order, |writes|)
  {
    if order == [] then []
    else
      var x := writes[order[|order| - 1]];
      Prefixes(writes, order[..|order| - 1]) + x.data[..Consumed(x)]
  }

  // ---------- the invariant ----------

  predicate IsActive(x: Write) {
    x.phase.Offering? || x.phase.Acking?
  }

  /** The write that has the lock, if one has it. */
  function Holder(s: State): int {
    if s.holder && s.order != [] then s.order[|s.order| - 1] else -1
  }

  /** Writes get the lock once each, one at a time; only the one that has it is active, and
      only those that got it have handed out bytes. */
  predicate Serial(s: State) {
    && InRange(s.order, |s.writes|)
    && (s.holder ==> s.order != [])
    && (forall i, j :: 0 <= i < j < |s.order| ==> s.order[i] != s.order[j])
    && (forall w :: 0 <= w < |s.writes| ==> (IsActive(s.writes[w]) <==> w == Holder(s)))
    && (forall w :: 0 <= w < |s.writes| && (s.writes[w].phase.Entering? || s.writes[w].phase.Queued?) ==> w !in s.order)
    && (forall w :: 0 <= w < |s.writes| && w !in s.order ==> Consumed(s.writes[w]) == 0)
  }

  /** A finished read names its own transfer, which fitted its buffer. */
  predicate ReadersServed(s: State) {
    && (forall r :: 0 <= r < |s.readers| && Copied(s.readers[r]) >= 0 ==>
          Copied(s.readers[r]) < |s.log| && |s.log[Copied(s.readers[r])]| <= s.readers[r].room)
    && (forall r, q :: 0 <= r < q < |s.readers| && Copied(s.readers[r]) >= 0 ==>
          Copied(s.readers[r]) != Copied(s.readers[q]))
  }

  /** A report under way is for the transfer of the write that has the lock. */
  predicate Paired(s: State) {
    && (forall r :: 0 <= r < |s.readers| && s.readers[r].phase.Reporting? ==>
          && 0 <= Holder(s) < |s.writes|
          && s.writes[Holder(s)].phase == Acking(s.readers[r].phase.taken))
    && (forall r, q :: 0 <= r < q < |s.readers| ==> !(s.readers[r].phase.Reporting? && s.readers[q].phase.Reporting?))
  }

  function Copied(x: Read): int {
    if x.phase.Reporting? || x.phase.Got? then x.phase.copied else -1
  }

  ghost predicate Inv(s: State) {
    AllSound(s.writes) && Serial(s) && Concat(s.log) == Prefixes(s.writes, s.order)
  }

  lemma {:induction false} PrefixesFrame(writes: seq<Write>, writes': seq<Write>, order: seq<nat>)
    requires AllSound(writes) && AllSound(writes') && InRange(order, |writes|) && |writes| <= |writes'|
    requires forall i :: 0 <= i < |order| ==>
               && writes'[order[i]].data == writes[order[i]].data
               && Consumed(writes'[order[i]]) == Consumed(writes[order[i]])
    ensures Prefixes(writes', order) == Prefixes(writes, order)
  {
    if order == [] {
    } else {
      PrefixesFrame(writes, writes', order[..|order| - 1]);
    }
  }

  /** A step of write `w` that hands out nothing and does not take the lock. */
  predicate Quiet(s: State, t: State, w: nat, x: Write)
    requires w < |s.writes|
  {
    && t.writes == s.writes[w := x] && t.order == s.order && t.log == s.log
    && x.data == s.writes[w].data && Consumed(x) == Consumed(s.writes[w]) && Sound(x)
    && (x.phase.Entering? || x.phase.Queued? ==> s.writes[w].phase.Entering? || s.writes[w].phase.Queued?)
    && (if IsActive(x) then IsActive(s.writes[w]) && t.holder == s.holder
        else t.holder == (s.holder && !IsActive(s.writes[w])))
  }

  lemma SerialQuiet(s: State, t: State, w: nat, x: Write)
    requires Serial(s) && w < |s.writes| && Quiet(s, t, w, x)
    ensures Serial(t)
  {
    assert IsActive(s.writes[w]) <==> w == Holder(s);
    forall k | 0 <= k < |t.writes| ensures IsActive(t.writes[k]) <==> k == Holder(t) {
      assert IsActive(s.writes[k]) <==> k == Holder(s);
    }
  }

  lemma InvQuiet(s: State, t: State, w: nat, x: Write)
    requires Inv(s) && w < |s.writes| && Quiet(s, t, w, x)
    ensures Inv(t)
  {
    SerialQuiet(s, t, w, x);
    PrefixesFrame(s.writes, t.writes, s.order);
  }

  lemma InvEntered(s: State, w: nat, expired: bool)
    requires Inv(s) && w < |s.writes|
    ensures Inv(Entered(s, w, expired))
  {
    var t := Entered(s, w, expired);
    if t != s { InvQuiet(s, t, w, t.writes[w]); }
  }

  lemma SerialLocked(s: State, w: nat)
    requires Serial(s) && w < |s.writes| && s.writes[w].phase.Queued? && !s.holder
    ensures Serial(Locked(s, w))
  {
    var t := Locked(s, w);
    forall k | 0 <= k < |t.writes| ensures IsActive(t.writes[k]) <==> k == Holder(t) {
      assert IsActive(s.writes[k]) <==> k == Holder(s);
    }
  }

  lemma PrefixesAppend(writes: seq<Write>, order: seq<nat>, w: nat)
    requires AllSound(writes) && InRange(order, |writes|) && w < |writes| && Consumed(writes[w]) == 0
    ensures InRange(order + [w], |writes|) && Prefixes(writes, order + [w]) == Prefixes(writes, order)
  {
    assert (order + [w])[..|order|] == order;
  }

  lemma InvLocked(s: State, w: nat)
    requires Inv(s) && w < |s.writes|
    ensures Inv(Locked(s, w))
  {
    var t := Locked(s, w);
    if t != s {
      SerialLocked(s, w);
      PrefixesFrame(s.writes, t.writes, s.order);
      PrefixesAppend(t.writes, s.order, w);
    }
  }

  lemma SerialTransferred(s: State, w: nat, r: nat)
    requires Serial(s) && w < |s.writes| && r < |s.readers|
    ensures Serial(Transferred(s, w, r))
  {
    var t := Transferred(s, w, r);
    assert IsActive(s.writes[w]) <==> w == Holder(s);
    forall k | 0 <= k < |t.writes| ensures IsActive(t.writes[k]) <==> k == Holder(t) {
      assert IsActive(s.writes[k]) <==> k == Holder(s);
    }
  }

  lemma SliceGrows(bytes: seq<byte>, i: nat, j: nat)
    requires i <= j <= |bytes|
    ensures bytes[..j] == bytes[..i] + bytes[i..j]
  {
  }

  lemma PrefixesGrow(writes: seq<Write>, order: seq<nat>, x: Write)
    requires AllSound(writes) && InRange(order, |writes|) && order != [] && Sound(x)
    requires forall i, j :: 0 <= i < j < |order| ==> order[i] != order[j]
    requires var y := writes[order[|order| - 1]]; x.data == y.data && Consumed(y) <= Consumed(x)
    ensures var w := order[|order| - 1];
            && AllSound(writes[w := x])
            && Prefixes(writes[w := x], order) == Prefixes(writes, order) + x.data[Consumed(writes[w])..Consumed(x)]
  {
    var w := order[|order| - 1];
    var y, front, writes' := writes[w], order[..|order| - 1], writes[w := x];
    assert forall i :: 0 <= i < |front| ==> front[i] == order[i] && front[i] != w;
    PrefixesFrame(writes, writes', front);
    SliceGrows(x.data, Consumed(y), Consumed(x));
    assert Prefixes(writes', order) == Prefixes(writes', front) + x.data[..Consumed(x)];
    assert Prefixes(writes, order) == Prefixes(writes, front) + y.data[..Consumed(y)];
  }

  lemma InvTransferred(s: State, w: nat, r: nat)
    requires Inv(s) && w < |s.writes| && r < |s.readers|
    ensures Inv(Transferred(s, w, r))
  {
    var t := Transferred(s, w, r);
    SerialTransferred(s, w, r);
    if t != s {
      assert IsActive(s.writes[w]) <==> w == Holder(s);
      PrefixesGrow(s.writes, s.order, t.writes[w]);
      assert t.log[..|s.log|] == s.log;
    }
  }

  lemma InvReported(s: State, w: nat, r: nat)
    requires Inv(s) && Paired(s) && w < |s.writes| && r < |s.readers|
    ensures Inv(Reported(s, w, r))
  {
    var t := Reported(s, w, r);
    assert IsActive(s.writes[w]) <==> w == Holder(s);
    if t != s { InvQuiet(s, t, w, t.writes[w]); }
  }

  lemma InvAborted(s: State, w: nat, expired: bool)
    requires Inv(s) && w < |s.writes|
    ensures Inv(WriteAborted(s, w, expired))
  {
    var t := WriteAborted(s, w, expired);
    assert IsActive(s.writes[w]) <==> w == Holder(s);
    if t != s { InvQuiet(s, t, w, t.writes[w]); }
  }

  lemma SerialCalled(s: State, t: State, data: seq<byte>)
    requires Serial(s) && t == s.(writes := s.writes + [Write(data, 0, Entering)])
    ensures Serial(t)
  {
    assert |s.writes| !in s.order;
    forall k | 0 <= k < |t.writes| ensures IsActive(t.writes[k]) <==> k == Holder(t) {
      if k < |s.writes| { assert IsActive(s.writes[k]) <==> k == Holder(s); }
    }
  }

  lemma InvCalled(s: State, t: State, data: seq<byte>)
    requires Inv(s) && t == s.(writes := s.writes + [Write(data, 0, Entering)])
    ensures Inv(t)
  {
    SerialCalled(s, t, data);
    PrefixesFrame(s.writes, t.writes, s.order);
  }

  lemma InvOutside(s: State, t: State)
    requires Inv(s) && t.writes == s.writes && t.order == s.order && t.log == s.log && t.holder == s.holder
    ensures Inv(t)
  {
    assert forall k :: 0 <= k < |t.writes| ==> (IsActive(s.writes[k]) <==> k == Holder(s));
  }

  lemma InvStep(s: State, e: Event)
    requires Inv(s) && Paired(s)
    ensures Inv(Apply(s, e))
  {
    match e
    case CallWrite(data) => InvCalled(s, Apply(s, e), data);
    case EnterWrite(w, expired) => if w < |s.writes| { InvEntered(s, w, expired); }
    case LockWrite(w) => if w < |s.writes| { InvLocked(s, w); }
    case Transfer(w, r) => if w < |s.writes| && r < |s.readers| { InvTransferred(s, w, r); }
    case Report(w, r) => if w < |s.writes| && r < |s.readers| { InvReported(s, w, r); }
    case AbortWrite(w, expired) => if w < |s.writes| { InvAborted(s, w, expired); }
    case CallRead(_) => InvElsewhere(s, e);
    case EnterRead(_, _) => InvElsewhere(s, e);
    case AbortRead(_, _) => InvElsewhere(s, e);
    case StoreReadError(_) => InvElsewhere(s, e);
    case StoreWriteError(_) => InvElsewhere(s, e);
    case CloseDone => InvElsewhere(s, e);
  }

  predicate Elsewhere(e: Event) {
    e.CallRead? || e.EnterRead? || e.AbortRead? || e.StoreReadError? || e.StoreWriteError? || e.CloseDone?
  }

  lemma ElsewhereSame(s: State, e: Event)
    requires Elsewhere(e)
    ensures var t := Apply(s, e);
            t.writes == s.writes && t.order == s.order && t.log == s.log && t.holder == s.holder
  {
  }

  lemma InvElsewhere(s: State, e: Event)
    requires Inv(s) && Elsewhere(e)
    ensures Inv(Apply(s, e))
  {
    ElsewhereSame(s, e);
    InvOutside(s, Apply(s, e));
  }

  lemma ServedSame(s: State, t: State)
    requires ReadersServed(s) && t.log == s.log && |s.readers| <= |t.readers|
    requires forall r :: 0 <= r < |s.readers| ==>
                           Copied(t.readers[r]) == Copied(s.readers[r]) && t.readers[r].room == s.readers[r].room
    requires forall r :: |s.readers| <= r < |t.readers| ==> Copied(t.readers[r]) == -1
    ensures ReadersServed(t)
  {
  }

  lemma ServedTransferred(s: State, w: nat, r: nat)
    requires ReadersServed(s) && w < |s.writes| && r < |s.readers|
    ensures ReadersServed(Transferred(s, w, r))
  {
    var t := Transferred(s, w, r);
    if t != s {
      forall q | 0 <= q < |t.readers|
        ensures Copied(t.readers[q]) >= 0 ==>
                  Copied(t.readers[q]) < |t.log| && |t.log[Copied(t.readers[q])]| <= t.readers[q].room
        ensures q != r ==> Copied(t.readers[q]) < |s.log|
      {
        if q != r { assert t.readers[q] == s.readers[q]; }
      }
    }
  }

  lemma ServedStep(s: State, e: Event)
    requires ReadersServed(s)
    ensures ReadersServed(Apply(s, e))
  {
    if e.Transfer? && e.w < |s.writes| && e.r < |s.readers| {
      ServedTransferred(s, e.w, e.r);
    } else {
      ServedSame(s, Apply(s, e));
    }
  }

  // ---------- the reports ----------

  lemma PairedOthers(s: State, t: State)
    requires Paired(s) && (forall w :: 0 <= w < |s.writes| && s.writes[w].phase.Acking? ==> Holder(t) == Holder(s))
    requires Serial(s) && |s.writes| <= |t.writes| && |s.readers| <= |t.readers|
    requires forall w :: 0 <= w < |s.writes| && s.writes[w].phase.Acking? ==> t.writes[w].phase == s.writes[w].phase
    requires forall r :: 0 <= r < |s.readers| ==> t.readers[r].phase.Reporting? ==> t.readers[r] == s.readers[r]
    requires forall r :: |s.readers| <= r < |t.readers| ==> !t.readers[r].phase.Reporting?
    ensures Paired(t)
  {
  }

  lemma PairedTransferred(s: State, w: nat, r: nat)
    requires Serial(s) && Paired(s) && w < |s.writes| && r < |s.readers|
    ensures Paired(Transferred(s, w, r))
  {
    assert IsActive(s.writes[w]) <==> w == Holder(s);
  }

  lemma PairedReported(s: State, w: nat, r: nat)
    requires Serial(s) && Paired(s) && w < |s.writes| && r < |s.readers|
    ensures Paired(Reported(s, w, r))
  {
  }

  lemma PairedReader(s: State, e: Event)
    requires Serial(s) && Paired(s) && (e.CallRead? || e.EnterRead? || e.AbortRead?)
    ensures Paired(Apply(s, e))
  {
  }

  lemma PairedClose(s: State, e: Event)
    requires Paired(s) && (e.StoreReadError? || e.StoreWriteError? || e.CloseDone?)
    ensures Paired(Apply(s, e))
  {
  }

  lemma PairedEntered(s: State, e: Event)
    requires Serial(s) && Paired(s) && (e.CallWrite? || e.EnterWrite?)
    ensures Paired(Apply(s, e))
  {
  }

  lemma PairedStep(s: State, e: Event)
    requires Serial(s) && Paired(s)
    ensures Paired(Apply(s, e))
  {
    match e
    case Transfer(w, r) => if w < |s.writes| && r < |s.readers| { PairedTransferred(s, w, r); }
    case Report(w, r) => if w < |s.writes| && r < |s.readers| { PairedReported(s, w, r); }
    case LockWrite(_) => PairedLocked(s, e);
    case AbortWrite(_, _) => PairedLocked(s, e);
    case CallWrite(_) => PairedEntered(s, e);
    case EnterWrite(_, _) => PairedEntered(s, e);
    case CallRead(_) => PairedReader(s, e);
    case EnterRead(_, _) => PairedReader(s, e);
    case AbortRead(_, _) => PairedReader(s, e);
    case StoreReadError(_) => PairedClose(s, e);
    case StoreWriteError(_) => PairedClose(s, e);
    case CloseDone => PairedClose(s, e);
  }

  lemma PairedLocked(s: State, e: Event)
    requires Serial(s) && Paired(s) && (e.LockWrite? || e.AbortWrite?)
    ensures Paired(Apply(s, e))
  {
    assert forall w :: 0 <= w < |s.writes| ==> (IsActive(s.writes[w]) <==> w == Holder(s));
    PairedOthers(s, Apply(s, e));
  }

  // ---------- each write ----------

  /** The bytes of the transfers that came from write `w`, in order. */
  function Gathered(log: seq<seq<byte>>, from: seq<nat>, w: nat): seq<byte>
    requires |log| == |from|
  {
    if log == [] then []
    else
      var n := |log| - 1;
      Gathered(log[..n], from[..n], w) + if from[n] == w then log[n] else []
  }

  lemma GatheredAppend(log: seq<seq<byte>>, from: seq<nat>, bytes: seq<byte>, x: nat, w: nat)
    requires |log| == |from|
    ensures Gathered(log + [bytes], from + [x], w) == Gathered(log, from, w) + if x == w then bytes else []
  {
    assert (log + [bytes])[..|log|] == log && (from + [x])[..|from|] == from;
  }

  lemma {:induction false} GatheredNone(log: seq<seq<byte>>, from: seq<nat>, w: nat)
    requires |log| == |from| && forall i :: 0 <= i < |from| ==> from[i] != w
    ensures Gathered(log, from, w) == []
  {
    if log == [] {
    } else {
      GatheredNone(log[..|log| - 1], from[..|log| - 1], w);
    }
  }

  /** The transfers from a write are what it has handed out, as far as it has. */
  predicate Delivers(s: State, w: nat)
    requires |s.log| == |s.from| && w < |s.writes| && Sound(s.writes[w])
  {
    Gathered(s.log, s.from, w) == s.writes[w].data[..Consumed(s.writes[w])]
  }

  ghost predicate AllDelivered(s: State) {
    && |s.log| == |s.from| && InRange(s.from, |s.writes|) && AllSound(s.writes)
    && forall w :: 0 <= w < |s.writes| ==> Delivers(s, w)
  }

  predicate SameYield(x: Write, y: Write) {
    y.data == x.data && Consumed(y) == Consumed(x)
  }

  /** No other step changes what a write has handed out. */
  lemma YieldKept(s: State, e: Event, w: nat)
    requires Serial(s) && Paired(s) && !e.Transfer? && w < |s.writes|
    ensures var t := Apply(s, e);
            t.log == s.log && t.from == s.from && |s.writes| <= |t.writes| && SameYield(s.writes[w], t.writes[w])
  {
    if e.Report? && e.w < |s.writes| && e.r < |s.readers| {
      YieldReported(s, e.w, e.r, w);
    }
  }

  lemma YieldReported(s: State, w: nat, r: nat, k: nat)
    requires Serial(s) && Paired(s) && w < |s.writes| && r < |s.readers| && k < |s.writes|
    ensures var t := Reported(s, w, r);
            t.log == s.log && t.from == s.from && |s.writes| == |t.writes| && SameYield(s.writes[k], t.writes[k])
  {
    assert IsActive(s.writes[w]) <==> w == Holder(s);
  }

  lemma DeliveredTransferred(s: State, w: nat, r: nat)
    requires AllDelivered(s) && w < |s.writes| && r < |s.readers| && AllSound(Transferred(s, w, r).writes)
    ensures AllDelivered(Transferred(s, w, r))
  {
    var t := Transferred(s, w, r);
    if t != s {
      var x, y := s.writes[w], t.writes[w];
      var bytes := x.data[x.count..Consumed(y)];
      assert t.log == s.log + [bytes];
      forall k | 0 <= k < |t.writes| ensures Delivers(t, k) {
        assert Delivers(s, k);
        GatheredAppend(s.log, s.from, bytes, w, k);
        assert x.data[..x.count] + bytes == x.data[..Consumed(y)];
      }
    }
  }

  lemma DeliveredElsewhere(s: State, e: Event, t: State)
    requires AllDelivered(s) && Serial(s) && Paired(s) && !e.Transfer? && t == Apply(s, e) && AllSound(t.writes)
    ensures AllDelivered(t)
  {
    SameLog(s, e);
    forall k | 0 <= k < |t.writes| ensures Delivers(t, k) {
      if k < |s.writes| {
        assert Delivers(s, k);
        YieldKept(s, e, k);
      } else {
        GatheredNone(s.log, s.from, k);
      }
    }
  }

  /** Only a transfer adds to the log, and a new write has handed out nothing. */
  lemma SameLog(s: State, e: Event)
    requires !e.Transfer?
    ensures var t := Apply(s, e);
            && t.log == s.log && t.from == s.from && |s.writes| <= |t.writes|
            && forall k :: |s.writes| <= k < |t.writes| ==> Consumed(t.writes[k]) == 0
  {
  }

  lemma DeliveredStep(s: State, e: Event, t: State)
    requires AllDelivered(s) && Serial(s) && Paired(s) && t == Apply(s, e) && AllSound(t.writes)
    ensures AllDelivered(t)
  {
    if !e.Transfer? {
      DeliveredElsewhere(s, e, t);
    } else if e.w < |s.writes| && e.r < |s.readers| {
      DeliveredTransferred(s, e.w, e.r);
    }
  }

  // ---------- the errors ----------

  /** A read ends with the pipe's own errors or with the one stored for the write end, and a
      write with the pipe's own or the one stored for the read end. */
  predicate ErrorsOk(s: State) {
    && (s.done ==> s.rerr.Stored? || s.werr.Stored?)
    && (forall r :: 0 <= r < |s.readers| && s.readers[r].phase.Refused? ==>
          Explained(s.readers[r].phase.err, s.werr, s.done))
    && (forall w :: 0 <= w < |s.writes| && s.writes[w].phase.Returned? && s.writes[w].phase.outcome.Failure? ==>
          Explained(s.writes[w].phase.outcome.err, s.rerr, s.done))
  }

  predicate Explained(err: Error, stored: Stored, done: bool) {
    err == DeadlineExceeded || (done && (err == ClosedPipe || stored == Stored(err)))
  }

  lemma ErrorsStep(s: State, e: Event)
    requires ErrorsOk(s)
    ensures ErrorsOk(Apply(s, e))
  {
    match e
    case Transfer(w, r) => if w < |s.writes| && r < |s.readers| { ErrorsTransferred(s, w, r); }
    case Report(w, r) => if w < |s.writes| && r < |s.readers| { ErrorsTransferred(s, w, r); }
    case _ =>
  }

  lemma ErrorsTransferred(s: State, w: nat, r: nat)
    requires ErrorsOk(s) && w < |s.writes| && r < |s.readers|
    ensures ErrorsOk(Transferred(s, w, r)) && ErrorsOk(Reported(s, w, r))
  {
  }

  /** The first error stored for an end stays. */
  lemma {:induction false} StoredErrorsStay(es: seq<Event>, more: seq<Event>)
    ensures Run(es).werr.Stored? ==> Run(es + more).werr == Run(es).werr
    ensures Run(es).rerr.Stored? ==> Run(es + more).rerr == Run(es).rerr
    ensures Run(es).done ==> Run(es + more).done
    decreases |more|
  {
    if more == [] {
      assert es + more == es;
    } else {
      var n := |more| - 1;
      StoredErrorsStay(es, more[..n]);
      assert (es + more)[..|es + more| - 1] == es + more[..n];
      StoredErrorsStayStep(Run(es + more[..n]), more[n]);
    }
  }

  lemma StoredErrorsStayStep(s: State, e: Event)
    ensures s.werr.Stored? ==> Apply(s, e).werr == s.werr
    ensures s.rerr.Stored? ==> Apply(s, e).rerr == s.rerr
    ensures s.done ==> Apply(s, e).done
  {
  }

  // ---------- the theorem ----------

  ghost predicate Good(s: State) {
    Inv(s) && ReadersServed(s) && Paired(s) && ErrorsOk(s) && AllDelivered(s)
  }

  lemma GoodStep(s: State, e: Event, t: State)
    requires Good(s) && t == Apply(s, e)
    ensures Good(t)
  {
    InvStep(s, e);
    ServedStep(s, e);
    PairedStep(s, e);
    ErrorsStep(s, e);
    DeliveredStep(s, e, t);
  }

  lemma GoodStart()
    ensures Good(START)
  {
  }

  lemma {:induction false} GoodRun(es: seq<Event>)
    ensures Good(Run(es))
  {
    if es == [] {
      GoodStart();
    } else {
      var s, e, t := Run(es[..|es| - 1]), es[|es| - 1], Run(es);
      assert t == Apply(s, e);
      GoodRun(es[..|es| - 1]);
      GoodStep(s, e, t);
    }
  }

  /** Under any racing of writers, readers, closes and deadlines: the bytes readers got, in
      order, are the consumed prefixes of the writes, in the order of their locks, which each
      write gets at most once; each read got one transfer of its own; and errors are the
      deadline's, or the ones stored at a close. */
  lemma PipeDelivers(es: seq<Event>)
    ensures var s := Run(es);
            && AllSound(s.writes) && InRange(s.order, |s.writes|)
            && (forall i, j :: 0 <= i < j < |s.order| ==> s.order[i] != s.order[j])
            && Concat(s.log) == Prefixes(s.writes, s.order) && ReadersServed(s)
            && (forall w :: 0 <= w < |s.writes| && w !in s.order ==> Consumed(s.writes[w]) == 0)
            && ErrorsOk(s)
  {
    GoodRun(es);
  }

  /** For each write: what readers got from it, transfer by transfer, is the prefix of its data
      that it counts; a count returned is exactly the bytes delivered, and success means all. */
  lemma WriteCountIsExact(es: seq<Event>, w: nat)
    requires w < |Run(es).writes|
    ensures var s := Run(es); var x := s.writes[w];
            && |s.log| == |s.from| && Consumed(x) <= |x.data|
            && Gathered(s.log, s.from, w) == x.data[..Consumed(x)]
            && (x.phase.Returned? ==> Gathered(s.log, s.from, w) == x.data[..x.count])
            && (x.phase == Returned(Success) ==> Gathered(s.log, s.from, w) == x.data)
  {
    GoodRun(es);
    var s := Run(es);
    assert Sound(s.writes[w]) && Delivers(s, w);
    assert s.writes[w].data[..|s.writes[w].data|] == s.writes[w].data;
  }

  /** Progress: whenever a write has bytes on offer and a reader waits, the two meet; with room
      for all of it, the rest of the write is delivered to that reader and the write returns. */
  lemma WriteCompletes(es: seq<Event>, w: nat, r: nat)
    requires w < |Run(es).writes| && Run(es).writes[w].phase == Offering
    requires r < |Run(es).readers| && Run(es).readers[r].phase == Waiting
    requires Run(es).readers[r].room >= |Run(es).writes[w].data| - Run(es).writes[w].count
    ensures Run(es).writes[w].count <= |Run(es).writes[w].data|
    ensures var s, t := Run(es), Apply(Apply(Run(es), Transfer(w, r)), Report(w, r));
            && t.writes[w] == Write(s.writes[w].data, |s.writes[w].data|, Returned(Success))
            && t.readers[r].phase == Got(|s.log|) && t.log == s.log + [s.writes[w].data[s.writes[w].count..]]
            && !t.holder
  {
    GoodRun(es);
    assert Sound(Run(es).writes[w]);
    MeetAndReturn(Run(es), w, r);
  }

  lemma MeetAndReturn(s: State, w: nat, r: nat)
    requires w < |s.writes| && r < |s.readers| && s.writes[w].phase == Offering && s.readers[r].phase == Waiting
    requires s.writes[w].count <= |s.writes[w].data| <= s.writes[w].count + s.readers[r].room
    ensures var t := Reported(Transferred(s, w, r), w, r);
            && t.writes == s.writes[w := Write(s.writes[w].data, |s.writes[w].data|, Returned(Success))]
            && t.readers == s.readers[r := Read(s.readers[r].room, Got(|s.log|))]
            && t.log == s.log + [s.writes[w].data[s.writes[w].count..]] && !t.holder
  {
    var x := s.writes[w];
    var n := |x.data| - x.count;
    assert x.data[x.count..x.count + n] == x.data[x.count..];
    var t := Transferred(s, w, r);
    assert t.writes == s.writes[w := x.(phase := Acking(n))];
    assert t.readers == s.readers[r := Read(s.readers[r].room, Reporting(n, |s.log|))];
  }

  // ---------- from call to return ----------

  lemma RunOne(es: seq<Event>, e: Event)
    ensures Run(es + [e]) == Apply(Run(es), e)
  {
    assert (es + [e])[..|es|] == es;
  }

  lemma WriteGetsLock(s: State, data: seq<byte>)
    requires !s.done && !s.holder
    ensures var w := |s.writes|;
            var t := Apply(Apply(Apply(s, CallWrite(data)), EnterWrite(w, false)), LockWrite(w));
            && t.writes == s.writes + [Write(data, 0, Offering)] && t.log == s.log && t.readers == s.readers && !t.done
  {
    var w := |s.writes|;
    var t := Apply(Apply(s, CallWrite(data)), EnterWrite(w, false));
    assert t.writes == s.writes + [Write(data, 0, Queued)];
  }

  lemma ReadWaits(s: State, room: nat)
    requires !s.done
    ensures var r := |s.readers|;
            var t := Apply(Apply(s, CallRead(room)), EnterRead(r, false));
            && t.readers == s.readers + [Read(room, Waiting)] && t.writes == s.writes && t.log == s.log
  {
    var r := |s.readers|;
    assert Apply(s, CallRead(room)).readers[r] == Read(room, Starting);
  }

  lemma MeetInPart(s: State, w: nat, r: nat)
    requires w < |s.writes| && r < |s.readers| && s.writes[w].phase == Offering && s.readers[r].phase == Waiting
    requires s.writes[w].count + s.readers[r].room < |s.writes[w].data|
    ensures var x, n := s.writes[w], s.readers[r].room;
            var t := Reported(Transferred(s, w, r), w, r);
            && t.writes == s.writes[w := x.(count := x.count + n)]
            && t.readers == s.readers[r := Read(n, Got(|s.log|))]
            && t.log == s.log + [x.data[x.count..x.count + n]] && t.holder == s.holder
  {
    var x, n := s.writes[w], s.readers[r].room;
    var t := Transferred(s, w, r);
    assert t.writes == s.writes[w := x.(phase := Acking(n))];
    assert t.readers == s.readers[r := Read(n, Reporting(n, |s.log|))];
  }

  /** One step of a delivery: a read of size `room` gets the next bytes of the write on offer, as
      many as fit, and the write returns exactly when none are left. */
  ghost predicate Served(s: State, t: State, w: nat, r: nat)
    requires w < |s.writes| && r < |s.readers| && s.writes[w].count <= |s.writes[w].data|
  {
    var x := s.writes[w];
    var n := Min(s.readers[r].room, |x.data| - x.count);
    && t.log == s.log + [x.data[x.count..x.count + n]] && r < |t.readers| && t.readers[r].phase == Got(|s.log|)
    && w < |t.writes|
    && t.writes[w] == Write(x.data, x.count + n, if x.count + n < |x.data| then Offering else Returned(Success))
  }

  /** In every run, a write on offer and a waiting reader are served so. */
  lemma ReaderIsServed(es: seq<Event>, w: nat, r: nat)
    requires w < |Run(es).writes| && Run(es).writes[w].phase == Offering
    requires r < |Run(es).readers| && Run(es).readers[r].phase == Waiting
    ensures Run(es).writes[w].count <= |Run(es).writes[w].data|
    ensures Served(Run(es), Run(es + [Transfer(w, r)] + [Report(w, r)]), w, r)
  {
    GoodRun(es);
    RunOne(es, Transfer(w, r));
    RunOne(es + [Transfer(w, r)], Report(w, r));
    var s := Run(es);
    assert Sound(s.writes[w]);
    ServedNow(s, w, r);
  }

  lemma ServedNow(s: State, w: nat, r: nat)
    requires w < |s.writes| && r < |s.readers| && s.writes[w].phase == Offering && s.readers[r].phase == Waiting
    requires s.writes[w].count <= |s.writes[w].data|
    ensures Served(s, Apply(Apply(s, Transfer(w, r)), Report(w, r)), w, r)
  {
    if s.writes[w].count + s.readers[r].room < |s.writes[w].data| {
      MeetInPart(s, w, r);
    } else {
      MeetAndReturn(s, w, r);
      assert s.writes[w].data[s.writes[w].count..] == s.writes[w].data[s.writes[w].count..|s.writes[w].data|];
    }
  }

  lemma WriteArrives(es: seq<Event>, data: seq<byte>) returns (es': seq<Event>)
    requires !Run(es).done && !Run(es).holder
    ensures es <= es'
    ensures var s, t := Run(es), Run(es');
            && t.writes == s.writes + [Write(data, 0, Offering)] && t.log == s.log && t.readers == s.readers && !t.done
  {
    var w := |Run(es).writes|;
    var es1 := es + [CallWrite(data)];
    var es2 := es1 + [EnterWrite(w, false)];
    es' := es2 + [LockWrite(w)];
    RunOne(es, CallWrite(data));
    RunOne(es1, EnterWrite(w, false));
    RunOne(es2, LockWrite(w));
    WriteGetsLock(Run(es), data);
  }

  /** In every run of an open pipe that nobody is writing to, a write that is called, and a read,
      get to that point: the write with all its bytes on offer, the read waiting. */
  lemma CallsMeet(es: seq<Event>, data: seq<byte>, room: nat)
    requires !Run(es).done && !Run(es).holder
    ensures exists es' :: es <= es' && Meeting(Run(es), Run(es'), data, room)
  {
    var es3 := WriteArrives(es, data);
    var r := |Run(es).readers|;
    var es4 := es3 + [CallRead(room)];
    var es5 := es4 + [EnterRead(r, false)];
    RunOne(es3, CallRead(room));
    RunOne(es4, EnterRead(r, false));
    ReadWaits(Run(es3), room);
    assert Meeting(Run(es), Run(es5), data, room);
  }

  predicate Meeting(s: State, t: State, data: seq<byte>, room: nat) {
    && t.writes == s.writes + [Write(data, 0, Offering)] && t.readers == s.readers + [Read(room, Waiting)]
    && t.log == s.log
  }

  // ---------- after a close ----------

  /** In every run of a closed pipe: a read that is called or waiting ends with the error stored
      for the write end, if the read end was not closed as well, and with the pipe's own
      otherwise. */
  lemma ReadFailsWithStored(es: seq<Event>, r: nat, e: Event)
    requires Run(es).done && r < |Run(es).readers|
    requires (e == EnterRead(r, false) && Run(es).readers[r].phase == Starting)
             || (e == AbortRead(r, false) && Run(es).readers[r].phase == Waiting)
    ensures var s, t := Run(es), Run(es + [e]);
            && r < |t.readers|
            && (s.rerr.Stored? ==> t.readers[r].phase == Refused(ClosedPipe))
            && (s.rerr == Nothing ==> s.werr.Stored? && t.readers[r].phase == Refused(s.werr.err))
  {
    GoodRun(es);
    RunOne(es, e);
  }

  /** A write that is called or on offer ends, with what it has counted so far, with the error
      stored for the read end, if the write end was not closed as well, and otherwise with the
      pipe's own; and gives up the lock. */
  lemma WriteFailsWithStored(es: seq<Event>, w: nat, e: Event)
    requires Run(es).done && w < |Run(es).writes|
    requires (e == EnterWrite(w, false) && Run(es).writes[w].phase == Entering)
             || (e == AbortWrite(w, false) && Run(es).writes[w].phase == Offering)
    ensures var s, t := Run(es), Run(es + [e]);
            && w < |t.writes| && t.writes[w].count == s.writes[w].count && (e.AbortWrite? ==> !t.holder)
            && (s.werr.Stored? ==> t.writes[w].phase == Returned(Failure(ClosedPipe)))
            && (s.werr == Nothing ==> s.rerr.Stored? && t.writes[w].phase == Returned(Failure(s.rerr.err)))
  {
    GoodRun(es);
    RunOne(es, e);
  }

  lemma StoresNow(s: State, err: Stored)
    ensures s.werr == Nothing ==> Apply(s, StoreWriteError(err)).werr == Stored(if err.Stored? then err.err else Eof)
    ensures s.rerr == Nothing ==>
              Apply(s, StoreReadError(err)).rerr == Stored(if err.Stored? then err.err else ClosedPipe)
    ensures s.werr.Stored? || s.rerr.Stored? ==> Apply(s, CloseDone).done
  {
  }

  /** Closing an end that was not closed stores the error given, or the pipe's own for that end. */
  lemma CloseStores(es: seq<Event>, err: Stored)
    ensures Run(es).werr == Nothing ==>
              Run(es + [StoreWriteError(err)]).werr == Stored(if err.Stored? then err.err else Eof)
    ensures Run(es).rerr == Nothing ==>
              Run(es + [StoreReadError(err)]).rerr == Stored(if err.Stored? then err.err else ClosedPipe)
  {
    StoresNow(Run(es), err);
    RunOne(es, StoreWriteError(err));
    RunOne(es, StoreReadError(err));
  }

  /** And then the pipe is closed. */
  lemma CloseCloses(es: seq<Event>)
    requires Run(es).werr.Stored? || Run(es).rerr.Stored?
    ensures Run(es + [CloseDone]).done
  {
    RunOne(es, CloseDone);
  }

  /** In every run, a deadline that has passed ends a read that is called or waiting. */
  lemma ReadDeadlineEnds(es: seq<Event>, r: nat, e: Event)
    requires r < |Run(es).readers|
    requires (e == EnterRead(r, true) && Run(es).readers[r].phase == Starting)
             || (e == AbortRead(r, true) && Run(es).readers[r].phase == Waiting)
    ensures Run(es + [e]).readers == Run(es).readers[r := Missed(Run(es).readers[r])]
  {
    RunOne(es, e);
  }

  /** It ends a write that is called or on offer, which keeps its count and gives up the lock. */
  lemma WriteDeadlineEnds(es: seq<Event>, w: nat, e: Event)
    requires w < |Run(es).writes|
    requires (e == EnterWrite(w, true) && Run(es).writes[w].phase == Entering)
             || (e == AbortWrite(w, true) && Run(es).writes[w].phase == Offering)
    ensures Run(es + [e]).writes == Run(es).writes[w := TimedOut(Run(es).writes[w])]
    ensures e.AbortWrite? ==> !Run(es + [e]).holder
  {
    RunOne(es, e);
  }

  function Missed(x: Read): Read {
    Read(x.room, Refused(DeadlineExceeded))
  }

  function TimedOut(x: Write): Write {
    Write(x.data, x.count, Returned(Failure(DeadlineExceeded)))
  }
}
