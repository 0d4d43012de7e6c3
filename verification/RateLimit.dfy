/** Rate limiting of a server connection: every byte written is paid for with a token of
    the device's up bucket, in requests no larger than the bucket's burst. */
module RateLimit {
  import opened Sequences
  import opened Frames
  import PaddedWriter

  // ---------- buckets ----------

  const MIN_BURST: nat := 64 * 1024

  type uint64 = n: int | 0 <= n < 0x1_0000_0000_0000_0000

  /** `int(n)` for a 64-bit unsigned `n`. */
  function AsInt(n: uint64): int {
    if n < 0x8000_0000_0000_0000 then n else n - 0x1_0000_0000_0000_0000
  }

  datatype Bucket = Unlimited | Bucket(rate: uint64, burst: nat)

  /** `newLimiter`: one second of tokens, but never less than the floor. */
  function NewLimiter(bytesPerSec: uint64): (b: Bucket)
    ensures b.Unlimited? <==> bytesPerSec == 0
    ensures b.Bucket? ==> b.rate == bytesPerSec
    ensures b.Bucket? && MIN_BURST <= bytesPerSec < 0x8000_0000_0000_0000 ==> b.burst == bytesPerSec
    ensures b.Bucket? && !(MIN_BURST <= bytesPerSec < 0x8000_0000_0000_0000) ==> b.burst == MIN_BURST
  {
    if bytesPerSec == 0 then Unlimited
    else Bucket(bytesPerSec, if AsInt(bytesPerSec) < MIN_BURST then MIN_BURST else AsInt(bytesPerSec))
  }

  /** The floor is a few bytes short of the largest frame, so a single request would not do. */
  lemma LargestFrameExceedsFloor(f: Frame)
    requires |f.data| == MAX_PAYLOAD
    ensures |Encode(f)| > MIN_BURST
  {
  }

  // ---------- the connection ----------

  predicate AllUpTo(ns: seq<nat>, max: nat) {
    forall i :: 0 <= i < |ns| ==> ns[i] <= max
  }

  /** The next portion of `n` tokens or bytes that is asked for or written at once. */
  function Portion(n: nat, burst: nat): nat {
    if n > burst then burst else n
  }

  /** The requests made for `n` tokens. */
  function Portions(n: nat, burst: nat): seq<nat>
    requires burst > 0
  {
    if n == 0 then [] else [Portion(n, burst)] + Portions(n - Portion(n, burst), burst)
  }

  /** The requests add up to the tokens wanted and none exceeds the burst. */
  lemma {:induction false} PortionsAddUp(n: nat, burst: nat)
    requires burst > 0
    ensures Total(Portions(n, burst)) == n && AllUpTo(Portions(n, burst), burst)
  {
    if n == 0 {
    } else {
      var rest := n - Portion(n, burst);
      PortionsAddUp(rest, burst);
      TotalCons(Portion(n, burst), Portions(rest, burst));
    }
  }

  lemma OneMore(done: seq<nat>, n: nat, n0: nat, burst: nat)
    requires burst > 0 && n > 0 && done + Portions(n, burst) == Portions(n0, burst)
    ensures (done + [Portion(n, burst)]) + Portions(n - Portion(n, burst), burst) == Portions(n0, burst)
    ensures Portions(n, burst) != []
  {
  }

  lemma StrictPrefix(before: seq<nat>, done: seq<nat>, rest: seq<nat>)
    requires rest != []
    ensures before <= before + done < before + (done + rest)
  {
    assert before + (done + rest) == (before + done) + rest;
  }

  /** Part-way through the requests for `n0` tokens, with `n` still to get. */
  lemma PartWay(before: seq<nat>, done: seq<nat>, n: nat, n0: nat, burst: nat)
    requires burst > 0 && done + Portions(n, burst) == Portions(n0, burst)
    ensures Total(before + done) + n == Total(before) + n0
    ensures n > 0 ==> before <= before + done < before + Portions(n0, burst)
  {
    PortionsAddUp(n, burst);
    PortionsAddUp(n0, burst);
    TotalBoth(before, done);
    TotalBoth(done, Portions(n, burst));
    if n > 0 { StrictPrefix(before, done, Portions(n, burst)); }
  }

  class LimitedConn {
    const up: Bucket
    /** Granted requests to the bucket, and bytes that reached the peer, in order. */
    var grants: seq<nat>
    var sent: seq<byte>

    ghost predicate Valid()
      reads this
    {
      && (up.Bucket? ==> up.burst > 0 && AllUpTo(grants, up.burst))
      && (up.Unlimited? ==> grants == [])
    }

    constructor (bytesPerSec: uint64)
      ensures Valid() && up == NewLimiter(bytesPerSec) && grants == [] && sent == []
    {
      up, grants, sent := NewLimiter(bytesPerSec), [], [];
    }

    /** The bucket: grants a request, or fails because the connection is being closed. */
    method WaitN(n: nat) returns (ok: bool)
      requires Valid() && up.Bucket? && n <= up.burst
      modifies this`grants
      ensures Valid() && grants == if ok then old(grants) + [n] else old(grants)
    {
      if * {
        return false;
      }
      grants := grants + [n];
      return true;
    }

    /** The wire: takes all of `p`, or a part of it and fails. */
    method ConnWrite(p: seq<byte>) returns (n: nat, ok: bool)
      modifies this`sent
      ensures n <= |p| && (ok ==> n == |p|) && sent == old(sent) + p[..n]
    {
      n, ok := |p|, true;
      if * {
        n :| 0 <= n <= |p|;
        ok := false;
      }
      sent := sent + p[..n];
    }

    /** Acquires `n` tokens in portions of at most the burst, or fails on the way. */
    method WaitWrite(n0: int) returns (ok: bool)
      requires Valid()
      modifies this`grants
      ensures Valid()
      ensures up.Bucket? && ok && n0 > 0 ==>
                grants == old(grants) + Portions(n0, up.burst) && Total(grants) == Total(old(grants)) + n0
      ensures !ok ==> up.Bucket? && n0 > 0 && old(grants) <= grants < old(grants) + Portions(n0, up.burst)
      ensures !ok ==> Total(old(grants)) <= Total(grants) < Total(old(grants)) + n0
      ensures n0 <= 0 || up.Unlimited? ==> ok && grants == old(grants)
    {
      if up.Unlimited? || n0 <= 0 {
        return true;
      }
      var n := n0;
      ghost var done: seq<nat> := [];
      while n > 0
        invariant 0 <= n <= n0 && Valid() && grants == old(grants) + done
        invariant done + Portions(n, up.burst) == Portions(n0, up.burst)
      {
        var chunk := Portion(n, up.burst);
        OneMore(done, n, n0, up.burst);
        ok := WaitN(chunk);
        if !ok {
          PartWay(old(grants), done, n, n0, up.burst);
          return;
        }
        n, done := n - chunk, done + [chunk];
      }
      PartWay(old(grants), done, 0, n0, up.burst);
      return true;
    }

    /** Writes `b` in portions of at most the burst, in order, and counts what got through. */
    method WriteUnlimited(b0: seq<byte>) returns (written: nat, ok: bool)
      requires Valid()
      modifies this`sent
      ensures written <= |b0| && sent == old(sent) + b0[..written]
      ensures ok ==> written == |b0|
    {
      if up.Unlimited? {
        written, ok := ConnWrite(b0);
        return;
      }
      var b := b0;
      written, ok := 0, true;
      while |b| > 0
        invariant written <= |b0| && b == b0[written..] && sent == old(sent) + b0[..written]
        decreases |b|
      {
        var chunk := Portion(|b|, up.burst);
        var n;
        n, ok := ConnWrite(b[..chunk]);
        assert b0[..written + n] == b0[..written] + b[..chunk][..n];
        written := written + n;
        if !ok {
          return;
        }
        b := b[chunk..];
      }
    }

    /** Never sends a byte without a token for it; without failure, exactly one each. */
    method Write(b: seq<byte>) returns (written: nat, ok: bool)
      requires Valid()
      modifies this
      ensures Valid()
      ensures written <= |b| && sent == old(sent) + b[..written] && (ok ==> written == |b|)
      ensures up.Bucket? ==> Total(grants) - Total(old(grants)) >= written
      ensures up.Bucket? && ok ==> Total(grants) - Total(old(grants)) == |b|
    {
      ok := WaitWrite(|b|);
      if !ok {
        return 0, false;
      }
      written, ok := WriteUnlimited(b);
    }
  }

  // ---------- a whole session ----------

  /** A frame on its way through a server session over such a connection. A control frame is
      `Paying` for its bytes without a lock and then `Queued` for the connection lock; a data
      frame is queued first and pays under the lock. `bytes` is its encoding, `taken` are the
      requests granted to it. */
  datatype Phase = Paying | Queued | Writing | Done | Failed
  datatype Writer =
    Writer(frame: Frame, bytes: seq<byte>, control: bool, phase: Phase, taken: seq<nat>, written: nat)

  /** `order`: the frames in the order they got the lock; `locked`: whether the last of them
      has it still. */
  datatype State = State(
    grants: seq<nat>,
    sent: seq<byte>,
    writers: seq<Writer>,
    order: seq<nat>,
    locked: bool,
    failed: bool)

  datatype Event =
    | Submit(frame: Frame, control: bool)
    | Grant(w: nat)
    | Refuse(w: nat)
    | Lock(w: nat)
    | Put(w: nat, took: nat, ok: bool)

  const START := State([], [], [], [], false, false)

  type Burst = b: Bucket | b.Bucket? ==> b.burst > 0 witness Unlimited

  function Size(x: Writer): nat {
    |x.bytes|
  }

  function Paid(x: Writer): nat {
    Total(x.taken)
  }

  function Spent(x: Writer): nat {
    x.written
  }

  /** Tokens acquired for bytes still to be written. */
  function Reserved(x: Writer): nat {
    if x.phase != Failed && Paid(x) > x.written then Paid(x) - x.written else 0
  }

  // ---------- the steps ----------

  function Submitted(b: Burst, s: State, f: Frame, control: bool): State {
    s.(writers := s.writers + [Entering(b, f, control)])
  }

  function Entering(b: Burst, f: Frame, control: bool): Writer {
    Writer(f, Encode(f), control, if control && b.Bucket? then Paying else Queued, [], 0)
  }

  /** One request that the bucket grants. */
  function Granted(b: Burst, s: State, w: nat): State
    requires w < |s.writers|
  {
    var x := s.writers[w];
    if x.phase != Paying || b.Unlimited? || Paid(x) >= Size(x) then s
    else
      var n := Portion(Size(x) - Paid(x), b.burst);
      s.(grants := s.grants + [n], writers := s.writers[w := Pays(x, n)])
  }

  function Pays(x: Writer, n: nat): Writer {
    x.(taken := x.taken + [n],
       phase := if Paid(x) + n < Size(x) then Paying else if x.control then Queued else Writing)
  }

  /** The wait is cut short because the connection is being closed. */
  function Refused(s: State, w: nat): State
    requires w < |s.writers|
  {
    var x := s.writers[w];
    if x.phase != Paying then s
    else s.(writers := s.writers[w := x.(phase := Failed)], failed := true, locked := s.locked && x.control)
  }

  function Locked(b: Burst, s: State, w: nat): State
    requires w < |s.writers|
  {
    var x := s.writers[w];
    if x.phase != Queued || s.locked then s
    else s.(writers := s.writers[w := x.(phase := if x.control || b.Unlimited? then Writing else Paying)],
            order := s.order + [w], locked := true)
  }

  /** One write on the connection, of all that is left or of a portion. */
  function Written(b: Burst, s: State, w: nat, took: nat, ok: bool): State
    requires w < |s.writers|
  {
    var x := s.writers[w];
    if x.phase != Writing || x.written > Size(x) then s
    else
      var left := Size(x) - x.written;
      var chunk := if b.Unlimited? then left else Portion(left, b.burst);
      var n := if ok || took > chunk then chunk else took;
      var phase := if !ok then Failed else if n < left then Writing else Done;
      s.(sent := s.sent + x.bytes[x.written..x.written + n],
         writers := s.writers[w := x.(phase := phase, written := x.written + n)],
         locked := phase == Writing, failed := s.failed || !ok)
  }

  function Apply(b: Burst, s: State, e: Event): State {
    match e
    case Submit(f, control) => Submitted(b, s, f, control)
    case Grant(w) => if w < |s.writers| then Granted(b, s, w) else s
    case Refuse(w) => if w < |s.writers| then Refused(s, w) else s
    case Lock(w) => if w < |s.writers| then Locked(b, s, w) else s
    case Put(w, took, ok) => if w < |s.writers| then Written(b, s, w, took, ok) else s
  }

  function Run(b: Burst, es: seq<Event>): State {
    if es == [] then START else Apply(b, Run(b, es[..|es| - 1]), es[|es| - 1])
  }

  // ---------- each frame ----------

  /** What holds of a frame in every state: it pays in portions until all its bytes are paid
      for, and writes none before. */
  ghost predicate Sound(b: Burst, x: Writer) {
    && x.bytes == Encode(x.frame) && x.bytes != [] && x.written <= Size(x)
    && (b.Unlimited? ==> x.taken == [] && x.phase != Paying)
    && (b.Bucket? ==>
          Paid(x) <= Size(x) && x.taken + Portions(Size(x) - Paid(x), b.burst) == Portions(Size(x), b.burst))
    && (b.Bucket? && (x.written > 0 || x.phase in {Writing, Done} || (x.control && x.phase == Queued)) ==>
          Paid(x) == Size(x))
    && (x.phase == Paying ==> Paid(x) < Size(x))
    && (x.phase in {Paying, Queued} ==> x.written == 0)
    && (x.phase == Writing ==> x.written < Size(x))
    && (x.phase == Done ==> x.written == Size(x))
    && (!x.control && x.phase == Queued ==> x.taken == [])
  }

  lemma SoundEntering(b: Burst, f: Frame, control: bool)
    ensures Sound(b, Entering(b, f, control))
  {
    assert |Encode(f)| >= HEADER_SIZE;
  }

  lemma SoundPays(b: Burst, x: Writer, n: nat)
    requires Sound(b, x) && x.phase == Paying && b.Bucket? && n == Portion(Size(x) - Paid(x), b.burst)
    ensures Sound(b, Pays(x, n)) && Paid(Pays(x, n)) == Paid(x) + n
  {
    TotalAppend(x.taken, n);
    OneMore(x.taken, Size(x) - Paid(x), Size(x), b.burst);
  }

  lemma SoundLocked(b: Burst, s: State, w: nat)
    requires w < |s.writers| && Sound(b, s.writers[w])
    ensures Sound(b, Refused(s, w).writers[w]) && Sound(b, Locked(b, s, w).writers[w])
  {
  }

  lemma SoundWritten(b: Burst, s: State, w: nat, took: nat, ok: bool)
    requires w < |s.writers| && Sound(b, s.writers[w])
    ensures Sound(b, Written(b, s, w, took, ok).writers[w])
  {
  }

  // ---------- the sums ----------

  function Tally(f: Writer -> nat, ws: seq<Writer>): nat {
    if ws == [] then 0 else Tally(f, ws[..|ws| - 1]) + f(ws[|ws| - 1])
  }

  lemma {:induction false} TallySet(f: Writer -> nat, ws: seq<Writer>, w: nat, x: Writer)
    requires w < |ws|
    ensures Tally(f, ws[w := x]) + f(ws[w]) == Tally(f, ws) + f(x)
    decreases |ws|
  {
    var n := |ws| - 1;
    if w == n {
      assert ws[w := x][..n] == ws[..n];
    } else {
      assert ws[w := x][..n] == ws[..n][w := x];
      TallySet(f, ws[..n], w, x);
    }
  }

  lemma TallyAppend(f: Writer -> nat, ws: seq<Writer>, x: Writer)
    ensures Tally(f, ws + [x]) == Tally(f, ws) + f(x)
  {
    assert (ws + [x])[..|ws|] == ws;
  }

  /** Bytes written and tokens reserved are covered by tokens paid, frame by frame. */
  lemma {:induction false} TallyCovered(b: Burst, ws: seq<Writer>)
    requires b.Bucket? && forall w :: 0 <= w < |ws| ==> Sound(b, ws[w])
    ensures Tally(Spent, ws) + Tally(Reserved, ws) <= Tally(Paid, ws)
    ensures (forall w :: 0 <= w < |ws| ==> ws[w].phase != Failed) ==>
              Tally(Spent, ws) + Tally(Reserved, ws) == Tally(Paid, ws)
  {
    if ws == [] {
    } else {
      assert Sound(b, ws[|ws| - 1]);
      TallyCovered(b, ws[..|ws| - 1]);
    }
  }

  // ---------- the lock ----------

  predicate IsActive(x: Writer) {
    x.phase == Writing || (x.phase == Paying && !x.control)
  }

  function Holder(s: State): int {
    if s.locked && s.order != [] then s.order[|s.order| - 1] else -1
  }

  predicate Waits(x: Writer) {
    x.phase == Queued || (x.phase == Paying && x.control)
  }

  /** Frames get the lock once each and one at a time; only the one that has it is active,
      and only those that got it have written anything. */
  ghost predicate Serial(s: State) {
    && (forall i :: 0 <= i < |s.order| ==> s.order[i] < |s.writers|)
    && (s.locked ==> s.order != [])
    && (forall i, j :: 0 <= i < j < |s.order| ==> s.order[i] != s.order[j])
    && (forall w :: 0 <= w < |s.writers| ==> (IsActive(s.writers[w]) <==> w == Holder(s)))
    && (forall w :: 0 <= w < |s.writers| && Waits(s.writers[w]) ==> w !in s.order)
    && (forall w :: 0 <= w < |s.writers| && w !in s.order ==> s.writers[w].written == 0 && s.writers[w].phase != Done)
  }

  /** A step of frame `w` that does not take the lock. */
  ghost predicate Moves(s: State, t: State, w: nat, x: Writer)
    requires w < |s.writers|
  {
    && t.writers == s.writers[w := x] && t.order == s.order
    && x.control == s.writers[w].control && x.bytes == s.writers[w].bytes
    && (Waits(x) ==> Waits(s.writers[w]))
    && (x.written != s.writers[w].written || x.phase == Done ==> IsActive(s.writers[w]))
    && (if IsActive(x) then IsActive(s.writers[w]) && t.locked == s.locked
        else t.locked == (s.locked && !IsActive(s.writers[w])))
  }

  lemma SerialMoves(s: State, t: State, w: nat, x: Writer)
    requires Serial(s) && w < |s.writers| && Moves(s, t, w, x)
    ensures Serial(t)
  {
    assert IsActive(s.writers[w]) <==> w == Holder(s);
    forall k | 0 <= k < |t.writers| ensures IsActive(t.writers[k]) <==> k == Holder(t) {
      assert IsActive(s.writers[k]) <==> k == Holder(s);
    }
  }

  lemma SerialLocked(b: Burst, s: State, w: nat)
    requires Serial(s) && w < |s.writers|
    ensures Serial(Locked(b, s, w))
  {
    var t := Locked(b, s, w);
    if t != s {
      forall k | 0 <= k < |t.writers| ensures IsActive(t.writers[k]) <==> k == Holder(t) {
        assert IsActive(s.writers[k]) <==> k == Holder(s);
      }
    }
  }

  lemma SerialSubmitted(b: Burst, s: State, f: Frame, control: bool)
    requires Serial(s)
    ensures Serial(Submitted(b, s, f, control))
  {
    var t := Submitted(b, s, f, control);
    forall k | 0 <= k < |t.writers| ensures IsActive(t.writers[k]) <==> k == Holder(t) {
      if k < |s.writers| { assert IsActive(s.writers[k]) <==> k == Holder(s); }
    }
  }

  // ---------- what is on the wire ----------

  predicate Within(x: Writer) {
    x.written <= Size(x)
  }

  /** The written parts of the frames, in lock order. */
  function Prefixes(ws: seq<Writer>, order: seq<nat>): seq<byte>
    requires forall w :: 0 <= w < |ws| ==> Within(ws[w])
    requires forall i :: 0 <= i < |order| ==> order[i] < |ws|
  {
    if order == [] then []
    else
      var x := ws[order[|order| - 1]];
      Prefixes(ws, order[..|order| - 1]) + x.bytes[..x.written]
  }

  lemma {:induction false} PrefixesFrame(ws: seq<Writer>, ws': seq<Writer>, order: seq<nat>)
    requires |ws| <= |ws'|
    requires (forall w :: 0 <= w < |ws'| ==> Within(ws'[w])) && (forall w :: 0 <= w < |ws| ==> Within(ws[w]))
    requires forall i :: 0 <= i < |order| ==>
               && order[i] < |ws|
               && ws'[order[i]].bytes == ws[order[i]].bytes && ws'[order[i]].written == ws[order[i]].written
    ensures Prefixes(ws', order) == Prefixes(ws, order)
  {
    if order == [] {
    } else {
      PrefixesFrame(ws, ws', order[..|order| - 1]);
    }
  }

  lemma SliceGrows(bytes: seq<byte>, i: nat, j: nat)
    requires i <= j <= |bytes|
    ensures bytes[..j] == bytes[..i] + bytes[i..j]
  {
  }

  lemma PrefixesGrow(ws: seq<Writer>, order: seq<nat>, x: Writer)
    requires (forall w :: 0 <= w < |ws| ==> Within(ws[w])) && Within(x) && order != []
    requires forall i :: 0 <= i < |order| ==> order[i] < |ws|
    requires forall i, j :: 0 <= i < j < |order| ==> order[i] != order[j]
    requires var y := ws[order[|order| - 1]]; x.bytes == y.bytes && y.written <= x.written
    ensures var w := order[|order| - 1];
            Prefixes(ws[w := x], order) == Prefixes(ws, order) + x.bytes[ws[w].written..x.written]
  {
    var w, front := order[|order| - 1], order[..|order| - 1];
    var ws' := ws[w := x];
    assert forall i :: 0 <= i < |front| ==> front[i] == order[i] && front[i] != w;
    PrefixesFrame(ws, ws', front);
    SliceGrows(x.bytes, ws[w].written, x.written);
    assert Prefixes(ws', order) == Prefixes(ws', front) + x.bytes[..x.written];
    assert Prefixes(ws, order) == Prefixes(ws, front) + x.bytes[..ws[w].written];
  }

  // ---------- the invariant ----------

  ghost predicate AllSound(b: Burst, s: State) {
    && (forall w :: 0 <= w < |s.writers| ==> Sound(b, s.writers[w]))
    && (s.failed || forall w :: 0 <= w < |s.writers| ==> s.writers[w].phase != Failed)
  }

  ghost predicate Balanced(b: Burst, s: State) {
    && Total(s.grants) == Tally(Paid, s.writers) && |s.sent| == Tally(Spent, s.writers)
    && (b.Bucket? ==> AllUpTo(s.grants, b.burst)) && (b.Unlimited? ==> s.grants == [])
  }

  ghost predicate OnWire(b: Burst, s: State)
    requires AllSound(b, s) && Serial(s)
  {
    AllWithin(b, s.writers);
    s.sent == Prefixes(s.writers, s.order)
  }

  lemma AllWithin(b: Burst, ws: seq<Writer>)
    requires forall w :: 0 <= w < |ws| ==> Sound(b, ws[w])
    ensures forall w :: 0 <= w < |ws| ==> Within(ws[w])
  {
    forall w | 0 <= w < |ws| ensures Within(ws[w]) {
      assert Sound(b, ws[w]);
    }
  }

  ghost predicate Good(b: Burst, s: State) {
    AllSound(b, s) && Serial(s) && Balanced(b, s) && OnWire(b, s)
  }

  lemma SoundMoves(b: Burst, s: State, t: State, w: nat, x: Writer)
    requires AllSound(b, s) && w < |s.writers| && t.writers == s.writers[w := x] && Sound(b, x)
    requires (s.failed ==> t.failed) && (x.phase == Failed ==> t.failed)
    ensures AllSound(b, t)
  {
  }

  lemma WireMoves(b: Burst, s: State, t: State, w: nat, x: Writer)
    requires AllSound(b, s) && Serial(s) && OnWire(b, s) && AllSound(b, t) && Serial(t)
    requires w < |s.writers| && Moves(s, t, w, x) && s.writers[w].written <= x.written <= Size(x)
    requires t.sent == s.sent + x.bytes[s.writers[w].written..x.written]
    ensures OnWire(b, t)
  {
    AllWithin(b, s.writers);
    AllWithin(b, t.writers);
    if x.written == s.writers[w].written {
      PrefixesFrame(s.writers, t.writers, s.order);
    } else {
      assert IsActive(s.writers[w]) <==> w == Holder(s);
      PrefixesGrow(s.writers, s.order, x);
    }
  }

  lemma BalancedMoves(b: Burst, s: State, t: State, w: nat, x: Writer, grants: seq<nat>)
    requires Balanced(b, s) && w < |s.writers| && t.writers == s.writers[w := x]
    requires t.grants == s.grants + grants && Total(t.grants) == Total(s.grants) + Paid(x) - Paid(s.writers[w])
    requires (b.Bucket? ==> AllUpTo(grants, b.burst)) && (b.Unlimited? ==> grants == [])
    requires |t.sent| == |s.sent| + x.written - s.writers[w].written
    ensures Balanced(b, t)
  {
    TallySet(Paid, s.writers, w, x);
    TallySet(Spent, s.writers, w, x);
  }

  /** A step of the frame `w` to `x`, with what it acquires and writes. */
  lemma GoodMoves(b: Burst, s: State, t: State, w: nat, x: Writer, grants: seq<nat>)
    requires Good(b, s) && w < |s.writers| && Moves(s, t, w, x) && Sound(b, x) && s.writers[w].written <= x.written
    requires (s.failed ==> t.failed) && (x.phase == Failed ==> t.failed)
    requires t.grants == s.grants + grants && Total(t.grants) == Total(s.grants) + Paid(x) - Paid(s.writers[w])
    requires (b.Bucket? ==> AllUpTo(grants, b.burst)) && (b.Unlimited? ==> grants == [])
    requires t.sent == s.sent + x.bytes[s.writers[w].written..x.written]
    ensures Good(b, t)
  {
    SoundMoves(b, s, t, w, x);
    SerialMoves(s, t, w, x);
    WireMoves(b, s, t, w, x);
    BalancedMoves(b, s, t, w, x, grants);
  }

  /** A step of the frame `w` to `x` that writes nothing. */
  lemma GoodStill(b: Burst, s: State, t: State, w: nat, x: Writer, grants: seq<nat>)
    requires Good(b, s) && w < |s.writers| && Moves(s, t, w, x) && Sound(b, x) && s.writers[w].written == x.written
    requires (s.failed ==> t.failed) && (x.phase == Failed ==> t.failed) && t.sent == s.sent
    requires t.grants == s.grants + grants && Total(t.grants) == Total(s.grants) + Paid(x) - Paid(s.writers[w])
    requires (b.Bucket? ==> AllUpTo(grants, b.burst)) && (b.Unlimited? ==> grants == [])
    ensures Good(b, t)
  {
    assert x.bytes[x.written..x.written] == [];
    GoodMoves(b, s, t, w, x, grants);
  }

  lemma MovesPays(s: State, t: State, w: nat, n: nat)
    requires w < |s.writers| && s.writers[w].phase == Paying && t.order == s.order && t.locked == s.locked
    requires t.writers == s.writers[w := Pays(s.writers[w], n)]
    ensures Moves(s, t, w, Pays(s.writers[w], n))
  {
  }

  lemma GoodPays(b: Burst, s: State, t: State, w: nat, n: nat)
    requires Good(b, s) && w < |s.writers| && s.writers[w].phase == Paying && Sound(b, s.writers[w])
    requires b.Bucket? && n == Portion(Size(s.writers[w]) - Paid(s.writers[w]), b.burst)
    requires t == s.(grants := s.grants + [n], writers := s.writers[w := Pays(s.writers[w], n)])
    ensures Good(b, t)
  {
    SoundPays(b, s.writers[w], n);
    TotalAppend(s.grants, n);
    MovesPays(s, t, w, n);
    GoodStill(b, s, t, w, Pays(s.writers[w], n), [n]);
  }

  lemma GoodGranted(b: Burst, s: State, w: nat)
    requires Good(b, s) && w < |s.writers|
    ensures Good(b, Granted(b, s, w))
  {
    var x := s.writers[w];
    assert Sound(b, x);
    if x.phase == Paying && b.Bucket? {
      GoodPays(b, s, Granted(b, s, w), w, Portion(Size(x) - Paid(x), b.burst));
    }
  }

  lemma GoodRefused(b: Burst, s: State, w: nat)
    requires Good(b, s) && w < |s.writers|
    ensures Good(b, Refused(s, w))
  {
    var x := s.writers[w];
    assert Sound(b, x) && (IsActive(x) <==> w == Holder(s));
    if x.phase == Paying {
      SoundLocked(b, s, w);
      assert s.grants + [] == s.grants;
      GoodStill(b, s, Refused(s, w), w, x.(phase := Failed), []);
    }
  }

  lemma MovesWrites(s: State, t: State, w: nat, x: Writer)
    requires w < |s.writers| && s.writers[w].phase == Writing && s.locked && t.order == s.order
    requires t.writers == s.writers[w := x] && x.bytes == s.writers[w].bytes && x.control == s.writers[w].control
    requires x.phase in {Writing, Done, Failed} && t.locked == (x.phase == Writing)
    ensures Moves(s, t, w, x)
  {
  }

  lemma GoodWritten(b: Burst, s: State, w: nat, took: nat, ok: bool)
    requires Good(b, s) && w < |s.writers|
    ensures Good(b, Written(b, s, w, took, ok))
  {
    var t, x := Written(b, s, w, took, ok), s.writers[w];
    assert Sound(b, x) && (IsActive(x) <==> w == Holder(s));
    if x.phase == Writing {
      SoundWritten(b, s, w, took, ok);
      MovesWrites(s, t, w, t.writers[w]);
      GoodMoves(b, s, t, w, t.writers[w], []);
    }
  }

  lemma WireLocked(b: Burst, s: State, t: State, w: nat, x: Writer)
    requires AllSound(b, s) && Serial(s) && OnWire(b, s) && AllSound(b, t) && Serial(t) && w < |s.writers|
    requires t.order == s.order + [w] && t.writers == s.writers[w := x] && t.sent == s.sent
    requires x.bytes == s.writers[w].bytes && x.written == s.writers[w].written == 0
    ensures OnWire(b, t)
  {
    AllWithin(b, s.writers);
    AllWithin(b, t.writers);
    PrefixesFrame(s.writers, t.writers, s.order);
    assert t.order[..|s.order|] == s.order;
  }

  lemma GoodHeld(b: Burst, s: State, t: State, w: nat, x: Writer)
    requires Good(b, s) && w < |s.writers| && Sound(b, x) && x.phase != Failed && Serial(t)
    requires t.writers == s.writers[w := x] && t.order == s.order + [w]
    requires t.sent == s.sent && t.grants == s.grants && t.failed == s.failed
    requires x.bytes == s.writers[w].bytes && x.taken == s.writers[w].taken && x.written == s.writers[w].written == 0
    ensures Good(b, t)
  {
    SoundMoves(b, s, t, w, x);
    WireLocked(b, s, t, w, x);
    assert s.grants + [] == s.grants;
    BalancedMoves(b, s, t, w, x, []);
  }

  lemma GoodLocked(b: Burst, s: State, w: nat)
    requires Good(b, s) && w < |s.writers|
    ensures Good(b, Locked(b, s, w))
  {
    var x := s.writers[w];
    assert Sound(b, x);
    if x.phase == Queued && !s.locked {
      var t, y := Locked(b, s, w), x.(phase := if x.control || b.Unlimited? then Writing else Paying);
      SoundLocked(b, s, w);
      SerialLocked(b, s, w);
      GoodHeld(b, s, t, w, y);
    }
  }

  lemma SoundSubmitted(b: Burst, s: State, t: State, x: Writer)
    requires AllSound(b, s) && t == s.(writers := s.writers + [x]) && Sound(b, x) && x.phase != Failed
    ensures AllSound(b, t)
  {
  }

  lemma WireSubmitted(b: Burst, s: State, t: State, x: Writer)
    requires AllSound(b, s) && Serial(s) && OnWire(b, s) && AllSound(b, t) && Serial(t)
    requires t == s.(writers := s.writers + [x])
    ensures OnWire(b, t)
  {
    AllWithin(b, s.writers);
    AllWithin(b, t.writers);
    PrefixesFrame(s.writers, t.writers, s.order);
  }

  lemma GoodSubmitted(b: Burst, s: State, f: Frame, control: bool)
    requires Good(b, s)
    ensures Good(b, Submitted(b, s, f, control))
  {
    var t, x := Submitted(b, s, f, control), Entering(b, f, control);
    SoundEntering(b, f, control);
    SoundSubmitted(b, s, t, x);
    SerialSubmitted(b, s, f, control);
    WireSubmitted(b, s, t, x);
    TallyAppend(Paid, s.writers, x);
    TallyAppend(Spent, s.writers, x);
  }

  lemma GoodStep(b: Burst, s: State, e: Event, t: State)
    requires Good(b, s) && t == Apply(b, s, e)
    ensures Good(b, t)
  {
    if e.Submit? {
      GoodSubmitted(b, s, e.frame, e.control);
    } else if e.w >= |s.writers| {
      assert t == s;
    } else if e.Grant? {
      GoodGranted(b, s, e.w);
    } else if e.Refuse? {
      GoodRefused(b, s, e.w);
    } else if e.Lock? {
      GoodLocked(b, s, e.w);
    } else {
      GoodWritten(b, s, e.w, e.took, e.ok);
    }
  }

  lemma {:induction false} GoodRun(b: Burst, es: seq<Event>)
    ensures Good(b, Run(b, es))
  {
    if es == [] {
    } else {
      GoodRun(b, es[..|es| - 1]);
      GoodStep(b, Run(b, es[..|es| - 1]), es[|es| - 1], Run(b, es));
    }
  }

  // ---------- the theorems ----------

  /** The frames with the given numbers. */
  function FramesOf(ws: seq<Writer>, order: seq<nat>): seq<Frame>
    requires forall i :: 0 <= i < |order| ==> order[i] < |ws|
  {
    seq(|order|, i requires 0 <= i < |order| => ws[order[i]].frame)
  }

  predicate Whole(x: Writer) {
    x.bytes == Encode(x.frame) && x.written == Size(x)
  }

  lemma {:induction false} WholeFrames(ws: seq<Writer>, order: seq<nat>)
    requires forall w :: 0 <= w < |ws| ==> Within(ws[w])
    requires forall i :: 0 <= i < |order| ==> order[i] < |ws| && Whole(ws[order[i]])
    ensures Prefixes(ws, order) == EncodeAll(FramesOf(ws, order))
  {
    if order == [] {
    } else {
      var front, x := order[..|order| - 1], ws[order[|order| - 1]];
      WholeFrames(ws, front);
      PaddedWriter.EncodeAllAppend(FramesOf(ws, front), x.frame);
      assert FramesOf(ws, order) == FramesOf(ws, front) + [x.frame];
      assert x.bytes[..Size(x)] == x.bytes;
    }
  }

  /** The bytes of the frame that has the lock. */
  function Underway(s: State): seq<byte>
    requires forall i :: 0 <= i < |s.order| ==> s.order[i] < |s.writers|
    requires forall w :: 0 <= w < |s.writers| ==> Within(s.writers[w])
  {
    if Holder(s) < 0 then [] else var x := s.writers[Holder(s)]; assert Within(x); x.bytes[..x.written]
  }

  /** The frames that had the lock before, in order. */
  function Before(s: State): seq<nat> {
    if Holder(s) < 0 then s.order else s.order[..|s.order| - 1]
  }

  lemma WholeBefore(b: Burst, s: State, i: nat)
    requires AllSound(b, s) && Serial(s) && !s.failed && i < |Before(s)|
    ensures Whole(s.writers[Before(s)[i]])
  {
    var w := Before(s)[i];
    assert w == s.order[i] && w in s.order && w != Holder(s);
    assert Sound(b, s.writers[w]) && (IsActive(s.writers[w]) <==> w == Holder(s)) && !Waits(s.writers[w]);
  }

  lemma WithoutFailure(b: Burst, s: State)
    requires Good(b, s) && !s.failed
    ensures forall w :: 0 <= w < |s.writers| ==> Within(s.writers[w])
    ensures s.sent == EncodeAll(FramesOf(s.writers, Before(s))) + Underway(s)
  {
    AllWithin(b, s.writers);
    var before := Before(s);
    forall i | 0 <= i < |before| ensures Whole(s.writers[before[i]]) {
      WholeBefore(b, s, i);
    }
    WholeFrames(s.writers, before);
  }

  /** In every interleaving of control and data writes, requests, writes and failures: no
      request exceeds the burst; bytes written and tokens reserved for bytes still to come
      never exceed the tokens acquired; and as long as nothing failed they are equal, and the
      wire holds the frames in the order of their locks, up to the one under way. */
  lemma ChargingIsExact(b: Burst, es: seq<Event>)
    ensures var s := Run(b, es);
            && (b.Unlimited? ==> s.grants == [])
            && (b.Bucket? ==> AllUpTo(s.grants, b.burst))
            && (b.Bucket? ==> |s.sent| + Tally(Reserved, s.writers) <= Total(s.grants))
            && (b.Bucket? && !s.failed ==> |s.sent| + Tally(Reserved, s.writers) == Total(s.grants))
            && (!s.failed ==> Good(b, s) && s.sent == EncodeAll(FramesOf(s.writers, Before(s))) + Underway(s))
  {
    GoodRun(b, es);
    var s := Run(b, es);
    if b.Bucket? { TallyCovered(b, s.writers); }
    if !s.failed { WithoutFailure(b, s); }
  }

  /** When every frame has been written, the tokens acquired are the bytes on the wire, and the
      wire holds exactly the frames, each once, in the order of their locks. */
  lemma FinishedSessionIsPaid(b: Burst, es: seq<Event>)
    requires !Run(b, es).failed && forall w :: 0 <= w < |Run(b, es).writers| ==> Run(b, es).writers[w].phase == Done
    ensures var s := Run(b, es);
            && (b.Bucket? ==> Total(s.grants) == |s.sent|)
            && (forall w :: 0 <= w < |s.writers| ==> w in s.order)
            && (forall i :: 0 <= i < |s.order| ==> s.order[i] < |s.writers|)
            && (forall i, j :: 0 <= i < j < |s.order| ==> s.order[i] != s.order[j])
            && s.sent == EncodeAll(FramesOf(s.writers, s.order))
  {
    ChargingIsExact(b, es);
    var s := Run(b, es);
    if b.Bucket? { NothingReserved(b, s.writers); }
    assert Holder(s) >= 0 ==> IsActive(s.writers[Holder(s)]);
  }

  lemma {:induction false} NothingReserved(b: Burst, ws: seq<Writer>)
    requires b.Bucket? && forall w :: 0 <= w < |ws| ==> Sound(b, ws[w]) && ws[w].phase == Done
    ensures Tally(Reserved, ws) == 0
  {
    if ws == [] {
    } else {
      assert Sound(b, ws[|ws| - 1]);
      NothingReserved(b, ws[..|ws| - 1]);
    }
  }

  // ---------- progress ----------

  lemma RunOne(b: Burst, es: seq<Event>, e: Event)
    ensures Run(b, es + [e]) == Apply(b, Run(b, es), e)
  {
    assert (es + [e])[..|es|] == es;
  }

  lemma SoundRun(b: Burst, es: seq<Event>, w: nat)
    requires w < |Run(b, es).writers|
    ensures Sound(b, Run(b, es).writers[w])
  {
    GoodRun(b, es);
  }

  lemma GrantNow(b: Burst, s: State, w: nat, n: nat)
    requires b.Bucket? && w < |s.writers| && s.writers[w].phase == Paying && Paid(s.writers[w]) < Size(s.writers[w])
    requires n == Portion(Size(s.writers[w]) - Paid(s.writers[w]), b.burst)
    ensures n > 0
    ensures Apply(b, s, Grant(w)) ==
            s.(grants := s.grants + [n], writers := s.writers[w := Pays(s.writers[w], n)])
  {
  }

  /** All that happened from `s` to `t` is that frame `w` has paid, and goes on. */
  predicate PaidOnly(s: State, t: State, w: nat) {
    && w < |s.writers| == |t.writers|
    && t == s.(grants := t.grants, writers := t.writers)
    && t.writers[w] == s.writers[w].(taken := t.writers[w].taken, phase := t.writers[w].phase)
  }

  /** A frame that is paying can go on to have paid, if every request is granted. */
  lemma {:induction false} PaysUp(b: Burst, es: seq<Event>, w: nat) returns (es': seq<Event>)
    requires b.Bucket? && w < |Run(b, es).writers| && Run(b, es).writers[w].phase == Paying
    ensures es <= es' && PaidOnly(Run(b, es), Run(b, es'), w)
    ensures Run(b, es').writers[w].phase == if Run(b, es).writers[w].control then Queued else Writing
    decreases Size(Run(b, es).writers[w]) - Paid(Run(b, es).writers[w])
  {
    SoundRun(b, es, w);
    var s := Run(b, es);
    var x := s.writers[w];
    var n := Portion(Size(x) - Paid(x), b.burst);
    es' := es + [Grant(w)];
    assert Run(b, es') == s.(grants := s.grants + [n], writers := s.writers[w := Pays(x, n)]) by {
      RunOne(b, es, Grant(w));
      GrantNow(b, s, w, n);
    }
    assert Run(b, es').writers[w] == Pays(x, n);
    if Paid(x) + n < Size(x) {
      TotalAppend(x.taken, n);
      es' := PaysUp(b, es', w);
    }
  }

  /** From `s` to `t` frame `w` has been written to its end, and the lock given up. */
  predicate WrittenOut(s: State, t: State, w: nat) {
    && w < |s.writers| == |t.writers| && s.writers[w].written <= |s.writers[w].bytes|
    && t.sent == s.sent + s.writers[w].bytes[s.writers[w].written..]
    && t.writers[w].phase == Done && t.failed == s.failed && !t.locked
  }

  lemma PutNow(b: Burst, s: State, w: nat, n: nat)
    requires w < |s.writers| && s.writers[w].phase == Writing && s.writers[w].written < Size(s.writers[w])
    requires var left := Size(s.writers[w]) - s.writers[w].written;
             n == if b.Unlimited? then left else Portion(left, b.burst)
    ensures var x := s.writers[w];
            var more := x.written + n < Size(x);
            && n > 0 && x.written + n <= Size(x)
            && Apply(b, s, Put(w, 0, true)) ==
               s.(sent := s.sent + x.bytes[x.written..x.written + n], locked := more,
                  writers := s.writers[w := x.(phase := if more then Writing else Done, written := x.written + n)])
  {
  }

  lemma WrittenOn(s: State, t: State, u: State, w: nat, n: nat)
    requires w < |s.writers| == |t.writers| && s.writers[w].written + n <= |s.writers[w].bytes| && t.failed == s.failed
    requires t.writers[w].bytes == s.writers[w].bytes && t.writers[w].written == s.writers[w].written + n
    requires t.sent == s.sent + s.writers[w].bytes[s.writers[w].written..s.writers[w].written + n]
    requires WrittenOut(t, u, w)
    ensures WrittenOut(s, u, w)
  {
    var bytes, i := s.writers[w].bytes, s.writers[w].written;
    assert bytes[i..] == bytes[i..i + n] + bytes[i + n..];
  }

  /** A frame that is being written can go on to be done, if no write fails. */
  lemma {:induction false} WritesOut(b: Burst, es: seq<Event>, w: nat) returns (es': seq<Event>)
    requires w < |Run(b, es).writers| && Run(b, es).writers[w].phase == Writing
    ensures es <= es' && WrittenOut(Run(b, es), Run(b, es'), w)
    decreases Size(Run(b, es).writers[w]) - Run(b, es).writers[w].written
  {
    SoundRun(b, es, w);
    var s := Run(b, es);
    var x := s.writers[w];
    var n := if b.Unlimited? then Size(x) - x.written else Portion(Size(x) - x.written, b.burst);
    es' := es + [Put(w, 0, true)];
    PutNow(b, s, w, n);
    RunOne(b, es, Put(w, 0, true));
    var t := Run(b, es');
    if x.written + n < Size(x) {
      es' := WritesOut(b, es', w);
      WrittenOn(s, t, Run(b, es'), w, n);
    } else {
      assert x.bytes[x.written..x.written + n] == x.bytes[x.written..];
    }
  }

  lemma LockNow(b: Burst, s: State, w: nat)
    requires w < |s.writers| && s.writers[w].phase == Queued && !s.locked
    ensures var x := s.writers[w];
            Apply(b, s, Lock(w)) ==
            s.(writers := s.writers[w := x.(phase := if x.control || b.Unlimited? then Writing else Paying)],
               order := s.order + [w], locked := true)
  {
  }

  /** The frame `w`, of which nothing has been written, is on the way: `s` is as `s0` otherwise. */
  predicate OnTheWay(s0: State, s: State, w: nat, f: Frame, control: bool, phase: Phase) {
    && w < |s.writers| && s.sent == s0.sent && s.failed == s0.failed && s.writers[w].phase == phase
    && s.writers[w].bytes == Encode(f) && s.writers[w].control == control && s.writers[w].written == 0
  }

  lemma ToTheLock(b: Burst, es: seq<Event>, f: Frame, control: bool) returns (es': seq<Event>)
    requires !Run(b, es).locked
    ensures es <= es' && !Run(b, es').locked
    ensures OnTheWay(Run(b, es), Run(b, es'), |Run(b, es).writers|, f, control, Queued)
  {
    var s, w := Run(b, es), |Run(b, es).writers|;
    RunOne(b, es, Submit(f, control));
    es' := es + [Submit(f, control)];
    assert Run(b, es') == s.(writers := s.writers + [Entering(b, f, control)]);
    assert Run(b, es').writers[w] == Entering(b, f, control);
    if control && b.Bucket? {
      es' := PaysUp(b, es', w);
    }
  }

  lemma ToTheWire(b: Burst, es: seq<Event>, w: nat, f: Frame, control: bool) returns (es': seq<Event>)
    requires !Run(b, es).locked && OnTheWay(Run(b, es), Run(b, es), w, f, control, Queued)
    ensures es <= es' && OnTheWay(Run(b, es), Run(b, es'), w, f, control, Writing)
  {
    RunOne(b, es, Lock(w));
    LockNow(b, Run(b, es), w);
    es' := es + [Lock(w)];
    if !control && b.Bucket? {
      es' := PaysUp(b, es', w);
    }
  }

  /** A frame submitted in any run while nobody has the lock can go out, whole and behind what is
      on the wire, if nothing fails. */
  lemma FrameGoesOut(b: Burst, es: seq<Event>, f: Frame, control: bool)
    requires !Run(b, es).locked
    ensures exists es' :: es <= es' && WentOut(Run(b, es), Run(b, es'), f)
  {
    var w := |Run(b, es).writers|;
    var es1 := ToTheLock(b, es, f, control);
    var es2 := ToTheWire(b, es1, w, f, control);
    var es3 := WritesOut(b, es2, w);
    assert Encode(f)[0..] == Encode(f);
    assert WentOut(Run(b, es), Run(b, es3), f);
  }

  predicate WentOut(s: State, t: State, f: Frame) {
    t.sent == s.sent + Encode(f) && t.failed == s.failed && !t.locked
  }

  /** In every run, a wait for tokens that is cut short ends its frame: the tokens acquired and the
      bytes written stay as they are, and the lock, if the frame has it, is given up. */
  lemma RefusalEnds(b: Burst, es: seq<Event>, w: nat)
    requires w < |Run(b, es).writers| && Run(b, es).writers[w].phase == Paying
    ensures var s, t := Run(b, es), Run(b, es + [Refuse(w)]);
            && t.failed && t.grants == s.grants && t.sent == s.sent && w < |t.writers|
            && t.writers[w].phase == Failed && t.locked == (s.locked && s.writers[w].control)
  {
    RunOne(b, es, Refuse(w));
  }

  /** In every run, a write that fails after some bytes ends its frame: these bytes are on the wire,
      and the lock is given up. */
  lemma FailedPutEnds(b: Burst, es: seq<Event>, w: nat, took: nat)
    requires w < |Run(b, es).writers| && Run(b, es).writers[w].phase == Writing && (b.Bucket? ==> took <= b.burst)
    requires Run(b, es).writers[w].written + took <= Size(Run(b, es).writers[w])
    ensures var s, t := Run(b, es), Run(b, es + [Put(w, took, false)]);
            var x := s.writers[w];
            && t.failed && t.grants == s.grants && t.sent == s.sent + x.bytes[x.written..x.written + took]
            && w < |t.writers| && t.writers[w].phase == Failed && !t.locked
  {
    RunOne(b, es, Put(w, took, false));
  }

  // ---------- servers neither pad nor hold back ----------

  lemma ServerWrites(s: PaddedWriter.Link, e: PaddedWriter.Event)
    requires e.Submit? && s.writer.buffer == [] && !s.writer.sendPadding && !s.writer.buffering
    ensures PaddedWriter.Apply(s, e) == s.(wire := s.wire + Encode(e.frame))
  {
    ConcatOne([] + Encode(e.frame));
    assert [] + Encode(e.frame) == Encode(e.frame);
  }

  /** What a server puts on the wire are the frames themselves. */
  lemma {:induction false} ServerWireIsPlain(es: seq<PaddedWriter.Event>)
    requires forall i :: 0 <= i < |es| ==> es[i].Submit?
    ensures var s := PaddedWriter.Run(PaddedWriter.Start(false), es);
            && s.wire == EncodeAll(PaddedWriter.Submitted(es)) && s.writer.buffer == []
            && !s.writer.sendPadding && !s.writer.buffering
  {
    if es == [] {
    } else {
      var es', e := es[..|es| - 1], es[|es| - 1];
      ServerWireIsPlain(es');
      ServerWrites(PaddedWriter.Run(PaddedWriter.Start(false), es'), e);
      PaddedWriter.EncodeAllAppend(PaddedWriter.Submitted(es'), e.frame);
    }
  }
}
