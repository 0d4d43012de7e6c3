/** The frame format of the session layer: a seven-byte header (command, stream id,
    16-bit length) followed by the payload, and the framing that the receive loop
    applies to a byte stream. */
module Frames {

  type byte = b: int | 0 <= b < 0x100
  type uint32 = w: int | 0 <= w < 0x1_0000_0000

  const WASTE: byte := 0
  const SYN: byte := 1
  const PSH: byte := 2
  const FIN: byte := 3
  const SETTINGS: byte := 4
  const ALERT: byte := 5
  const UPDATE_PADDING: byte := 6
  const SYNACK: byte := 7
  const HEART_RESPONSE: byte := 9
  const SERVER_SETTINGS: byte := 10

  const HEADER_SIZE: nat := 7
  const MAX_PAYLOAD: nat := 0xffff

  /** How many streams a server session admits at once. */
  const MAX_STREAMS: nat := 1024

  datatype Frame = Frame(cmd: byte, sid: uint32, data: seq<byte>)

  /** What is left of a byte stream after framing: whole frames, then an incomplete tail. */
  datatype Parsed = Parsed(frames: seq<Frame>, rest: seq<byte>)

  datatype Next = Incomplete | Next(frame: Frame, rest: seq<byte>)

  // ---------- encoding ----------

  function Big32(n: uint32): seq<byte> {
    [n / 0x100_0000, n / 0x1_0000 % 0x100, n / 0x100 % 0x100, n % 0x100]
  }

  /** `uint16(n)`, big-endian: lengths above 65535 wrap. */
  function Big16(n: nat): seq<byte> {
    [n / 0x100 % 0x100, n % 0x100]
  }

  function Header(cmd: byte, sid: uint32, length: nat): seq<byte> {
    [cmd] + Big32(sid) + Big16(length)
  }

  function Encode(f: Frame): seq<byte> {
    Header(f.cmd, f.sid, |f.data|) + f.data
  }

  function EncodeAll(fs: seq<Frame>): seq<byte> {
    if fs == [] then [] else Encode(fs[0]) + EncodeAll(fs[1..])
  }

  // ---------- decoding, as the receive loop does it ----------

  function StreamId(h: seq<byte>): uint32
    requires |h| >= HEADER_SIZE
  {
    (((h[1] as int) * 0x100 + h[2]) * 0x100 + h[3]) * 0x100 + h[4]
  }

  function Length(h: seq<byte>): nat
    requires |h| >= HEADER_SIZE
  {
    (h[5] as int) * 0x100 + h[6]
  }

  /** The commands whose payload the receive loop consumes. For every other command the
      length field is ignored and the next header is read right away. */
  predicate Carries(cmd: byte) {
    cmd in {WASTE, PSH, SETTINGS, ALERT, UPDATE_PADDING, SYNACK, SERVER_SETTINGS}
  }

  function ParseOne(b: seq<byte>): Next {
    if |b| < HEADER_SIZE then Incomplete
    else if !Carries(b[0]) then Next(Frame(b[0], StreamId(b), []), b[HEADER_SIZE..])
    else
      var end := HEADER_SIZE + Length(b);
      if |b| < end then Incomplete
      else Next(Frame(b[0], StreamId(b), b[HEADER_SIZE..end]), b[end..])
  }

  function Parse(b: seq<byte>): Parsed
    decreases |b|
  {
    match ParseOne(b)
    case Incomplete => Parsed([], b)
    case Next(f, rest) =>
      var p := Parse(rest);
      Parsed([f] + p.frames, p.rest)
  }

  function NonWaste(fs: seq<Frame>): seq<Frame> {
    if fs == [] then []
    else if fs[0].cmd == WASTE then NonWaste(fs[1..])
    else [fs[0]] + NonWaste(fs[1..])
  }

  /** What the peer acts on: the frames of a byte stream with padding dropped. */
  function Sift(b: seq<byte>): Parsed {
    var p := Parse(b);
    Parsed(NonWaste(p.frames), p.rest)
  }

  function Prepend(fs: seq<Frame>, p: Parsed): Parsed {
    Parsed(fs + p.frames, p.rest)
  }

  // ---------- alignment of a single frame ----------

  /** The frames that fit the format: the length is not truncated, and only a command
      whose payload is consumed carries one. */
  predicate Emittable(f: Frame) {
    |f.data| <= MAX_PAYLOAD && (f.data == [] || Carries(f.cmd))
  }

  lemma Big32Decodes(n: uint32)
    ensures ((n / 0x100_0000 * 0x100 + n / 0x1_0000 % 0x100) * 0x100 + n / 0x100 % 0x100) * 0x100 + n % 0x100 == n
  {
    var a := n / 0x100;
    var b := a / 0x100;
    assert n / 0x1_0000 == b && n / 0x100_0000 == b / 0x100;
    assert b / 0x100 * 0x100 + b % 0x100 == b;
    assert b * 0x100 + a % 0x100 == a;
    assert a * 0x100 + n % 0x100 == n;
  }

  lemma Big16Decodes(n: nat)
    ensures n / 0x100 % 0x100 * 0x100 + n % 0x100 == n % 0x1_0000
  {
  }

  lemma HeaderDecodes(cmd: byte, sid: uint32, length: nat, tail: seq<byte>)
    ensures var h := Header(cmd, sid, length) + tail;
            && |h| == HEADER_SIZE + |tail| && h[0] == cmd && StreamId(h) == sid
            && Length(h) == length % 0x1_0000 && h[HEADER_SIZE..] == tail
  {
    Big32Decodes(sid);
    Big16Decodes(length);
  }

  /** The layout of a frame: command, stream id and length, both big-endian, and payload. */
  lemma FrameLayout(f: Frame)
    ensures var b := Encode(f);
            && |b| == 7 + |f.data| && b[0] == f.cmd && b[7..] == f.data
            && f.sid == b[1] as int * 0x100_0000 + b[2] as int * 0x1_0000 + b[3] as int * 0x100 + b[4] as int
            && |f.data| % 0x1_0000 == b[5] as int * 0x100 + b[6] as int
  {
    Big32Decodes(f.sid);
    Big16Decodes(|f.data|);
  }

  lemma ParseEncoded(f: Frame, rest: seq<byte>)
    requires Emittable(f)
    ensures ParseOne(Encode(f) + rest) == Next(f, rest)
  {
    HeaderDecodes(f.cmd, f.sid, |f.data|, f.data + rest);
    assert Encode(f) + rest == Header(f.cmd, f.sid, |f.data|) + (f.data + rest);
    assert (Encode(f) + rest)[HEADER_SIZE..][..|f.data|] == f.data;
    assert (Encode(f) + rest)[HEADER_SIZE + |f.data|..] == rest;
  }

  /** The receive loop stays aligned behind a frame, whatever follows it, exactly when its payload
      fits the 16-bit length and is empty or that of a data, settings, alert, padding update,
      acknowledgement or waste frame. */
  lemma AlignedExactlyWhenEmittable(f: Frame)
    ensures Emittable(f) <==> forall rest: seq<byte> :: ParseOne(Encode(f) + rest) == Next(f, rest)
    ensures Emittable(f) <==> |f.data| < 0x1_0000 && (f.data == [] || f.cmd in {0, 2, 4, 5, 6, 7, 10})
  {
    if Emittable(f) {
      forall rest: seq<byte> ensures ParseOne(Encode(f) + rest) == Next(f, rest) {
        ParseEncoded(f, rest);
      }
    } else {
      HeaderDecodes(f.cmd, f.sid, |f.data|, f.data);
      assert Encode(f) + [] == Encode(f);
      assert ParseOne(Encode(f) + []) != Next(f, []);
    }
  }

  // ---------- alignment of padding ----------

  function Zeros(n: nat): seq<byte> {
    seq(n, i => 0)
  }

  /** A padding frame as the writer builds it: the header claims `uint16(n)` bytes and
      `n` zero bytes follow. */
  function Waste(n: nat): seq<byte> {
    Header(WASTE, 0, n) + Zeros(n)
  }

  function WasteAll(ns: seq<nat>): seq<byte> {
    if ns == [] then [] else Waste(ns[0]) + WasteAll(ns[1..])
  }

  /** Padding of length `n` goes unnoticed when no whole multiple of 65536 was cut off its
      length field, or when the bytes left over happen to form whole all-zero headers. */
  predicate Skippable(n: nat) {
    n / 0x1_0000 % 7 == 0
  }

  lemma SiftStep(b: seq<byte>, f: Frame, rest: seq<byte>)
    requires ParseOne(b) == Next(f, rest)
    ensures Sift(b) == if f.cmd == WASTE then Sift(rest) else Prepend([f], Sift(rest))
  {
    var p := Parse(rest);
    assert ([f] + p.frames)[1..] == p.frames;
  }

  /** Surplus zero bytes read as empty waste frames, seven at a time. */
  lemma {:induction false} SiftZeros(k: nat, rest: seq<byte>)
    ensures Sift(Zeros(7 * k) + rest) == Sift(rest)
  {
    if k == 0 {
      assert Zeros(0) + rest == rest;
    } else {
      var tail := Zeros(7 * (k - 1)) + rest;
      assert Zeros(7 * k) + rest == Header(WASTE, 0, 0) + tail;
      HeaderDecodes(WASTE, 0, 0, tail);
      assert ParseOne(Zeros(7 * k) + rest) == Next(Frame(WASTE, 0, []), tail);
      SiftStep(Zeros(7 * k) + rest, Frame(WASTE, 0, []), tail);
      SiftZeros(k - 1, rest);
    }
  }

  lemma ParseWaste(n: nat, rest: seq<byte>)
    ensures var m := n % 0x1_0000;
            ParseOne(Waste(n) + rest) == Next(Frame(WASTE, 0, Zeros(m)), Zeros(n - m) + rest)
  {
    var m := n % 0x1_0000;
    HeaderDecodes(WASTE, 0, n, Zeros(n) + rest);
    assert Waste(n) + rest == Header(WASTE, 0, n) + (Zeros(n) + rest);
    assert (Waste(n) + rest)[HEADER_SIZE..][..m] == Zeros(m);
    assert (Waste(n) + rest)[HEADER_SIZE + m..] == Zeros(n - m) + rest;
  }

  lemma SiftWaste(n: nat, rest: seq<byte>)
    requires Skippable(n)
    ensures Sift(Waste(n) + rest) == Sift(rest)
  {
    SiftSurplus(n, 0, rest);
    assert Zeros(0) + rest == rest;
  }

  /** A SYN behind one to six stray zero bytes is read as a waste header. */
  lemma StrayZerosSwallow(r: nat)
    requires 0 < r < 7
    ensures Sift(Zeros(r) + Encode(Frame(SYN, 0, []))).frames == []
  {
    var b := Zeros(r) + Encode(Frame(SYN, 0, []));
    assert |b| == 7 + r && b[0] == WASTE;
    if ParseOne(b).Next? {
      var Next(f, rest) := ParseOne(b);
      SiftStep(b, f, rest);
      assert Sift(rest) == Parsed([], rest);
    }
  }

  lemma SiftEncoded(f: Frame, rest: seq<byte>)
    requires Emittable(f)
    ensures Sift(Encode(f) + rest) == if f.cmd == WASTE then Sift(rest) else Prepend([f], Sift(rest))
  {
    ParseEncoded(f, rest);
    SiftStep(Encode(f) + rest, f, rest);
  }

  lemma SiftWasteFrame(n: nat, rest: seq<byte>)
    ensures Sift(Waste(n) + rest) == Sift(Zeros(n - n % 0x1_0000) + rest)
  {
    var m := n % 0x1_0000;
    ParseWaste(n, rest);
    SiftStep(Waste(n) + rest, Frame(WASTE, 0, Zeros(m)), Zeros(n - m) + rest);
  }

  lemma ZerosSplit(a: nat, b: nat, rest: seq<byte>)
    ensures Zeros(a + b) + rest == Zeros(a) + (Zeros(b) + rest)
  {
  }

  lemma SiftSurplusBy(n: nat, k: nat, r: nat, rest: seq<byte>)
    requires n - n % 0x1_0000 == 7 * k + r
    ensures Sift(Waste(n) + rest) == Sift(Zeros(r) + rest)
  {
    SiftWasteFrame(n, rest);
    ZerosSplit(7 * k, r, rest);
    SiftZeros(k, Zeros(r) + rest);
  }

  lemma SiftSurplus(n: nat, r: nat, rest: seq<byte>)
    requires r == (n - n % 0x1_0000) % 7
    ensures Sift(Waste(n) + rest) == Sift(Zeros(r) + rest)
  {
    SiftSurplusBy(n, (n - n % 0x1_0000) / 7, r, rest);
  }

  /** With the cut-off part not a multiple of seven, the following SYN is swallowed. */
  lemma MisalignedWaste(n: nat)
    requires !Skippable(n)
    ensures var syn := Encode(Frame(SYN, 0, []));
            Sift(Waste(n) + syn).frames == [] && Sift(syn).frames == [Frame(SYN, 0, [])]
  {
    var syn := Encode(Frame(SYN, 0, []));
    var r := (n - n % 0x1_0000) % 7;
    assert r != 0;
    SiftSurplus(n, r, syn);
    StrayZerosSwallow(r);
    SiftEncoded(Frame(SYN, 0, []), []);
    assert syn + [] == syn;
  }

  /** A padding frame of length `n` is invisible to the peer, whatever follows it, exactly
      when `n` is skippable; every `n` up to 65535 is. */
  lemma PaddingInvisibleExactlyWhenSkippable(n: nat)
    ensures Skippable(n) <==> forall rest: seq<byte> :: Sift(Waste(n) + rest) == Sift(rest)
    ensures n <= MAX_PAYLOAD ==> Skippable(n)
  {
    if Skippable(n) {
      forall rest: seq<byte> ensures Sift(Waste(n) + rest) == Sift(rest) {
        SiftWaste(n, rest);
      }
    } else {
      MisalignedWaste(n);
    }
  }

  // ---------- whole streams ----------

  predicate AllEmittable(fs: seq<Frame>) {
    forall i :: 0 <= i < |fs| ==> Emittable(fs[i])
  }

  predicate AllSkippable(ns: seq<nat>) {
    forall i :: 0 <= i < |ns| ==> Skippable(ns[i])
  }

  lemma PrependTwice(a: seq<Frame>, b: seq<Frame>, p: Parsed)
    ensures Prepend(a, Prepend(b, p)) == Prepend(a + b, p)
  {
    assert a + (b + p.frames) == (a + b) + p.frames;
  }

  lemma {:induction false} SiftFrames(fs: seq<Frame>, rest: seq<byte>)
    requires AllEmittable(fs)
    ensures Sift(EncodeAll(fs) + rest) == Prepend(NonWaste(fs), Sift(rest))
  {
    if fs == [] {
      assert EncodeAll(fs) + rest == rest;
    } else {
      var tail := EncodeAll(fs[1..]) + rest;
      assert EncodeAll(fs) + rest == Encode(fs[0]) + tail;
      SiftEncoded(fs[0], tail);
      SiftFrames(fs[1..], rest);
      PrependTwice([fs[0]], NonWaste(fs[1..]), Sift(rest));
    }
  }

  lemma {:induction false} SiftWasteAll(ns: seq<nat>, rest: seq<byte>)
    requires AllSkippable(ns)
    ensures Sift(WasteAll(ns) + rest) == Sift(rest)
  {
    if ns == [] {
      assert WasteAll(ns) + rest == rest;
    } else {
      var tail := WasteAll(ns[1..]) + rest;
      assert WasteAll(ns) + rest == Waste(ns[0]) + tail;
      SiftWaste(ns[0], tail);
      SiftWasteAll(ns[1..], rest);
    }
  }

  lemma {:induction false} EncodeAllConcat(a: seq<Frame>, b: seq<Frame>)
    ensures EncodeAll(a + b) == EncodeAll(a) + EncodeAll(b)
  {
    if a == [] {
      assert a + b == b;
    } else {
      assert (a + b)[1..] == a[1..] + b;
      EncodeAllConcat(a[1..], b);
    }
  }

  lemma {:induction false} NonWasteConcat(a: seq<Frame>, b: seq<Frame>)
    ensures NonWaste(a + b) == NonWaste(a) + NonWaste(b)
  {
    if a == [] {
      assert a + b == b;
    } else {
      assert (a + b)[1..] == a[1..] + b;
      NonWasteConcat(a[1..], b);
    }
  }
}
