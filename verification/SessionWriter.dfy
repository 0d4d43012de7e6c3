/** The writing half of a session as an object: the fields that change, the splitter's loop, and
    the padding factory asked for the sizes of each packet. */
module SessionWriter {
  import opened Frames
  import opened PaddedWriter
  import opened PaddingScheme

  class Session {
    var buffering: bool
    var buffer: seq<byte>
    var sendPadding: bool
    var pktCounter: uint32
    /** The writes made on the underlying connection, in order. */
    var writes: seq<seq<byte>>

    function View(): Writer
      reads this
    {
      Writer(buffering, buffer, sendPadding, pktCounter)
    }

    constructor (isClient: bool)
      ensures View() == Writer(false, [], isClient, 0) && writes == []
    {
      buffering, buffer, sendPadding, pktCounter, writes := false, [], isClient, 0, [];
    }

    /** The connection: it may fail at any write, after taking any part of it. */
    method ConnWrite(p: seq<byte>) returns (n: nat, ok: bool)
      modifies this`writes
      ensures n <= |p| && (ok ==> n == |p|)
      ensures writes == old(writes) + [p[..n]]
    {
      n, ok := |p|, true;
      if * {
        n :| 0 <= n <= |p|;
        ok := false;
      }
      writes := writes + [p[..n]];
    }

    /** One call under the connection lock. `sizes` are those the factory picked, under the number
        of the packet, if it was asked. */
    method DoWriteConn(b0: seq<byte>, f: Factory) returns (n: nat, ok: bool, ghost sizes: seq<Size>)
      modifies this
      ensures old(sendPadding) && !old(buffering) ==>
                var pkt := (old(pktCounter) + 1) % 0x1_0000_0000;
                pkt < f.stop ==> Realises(sizes, Schedule(f, pkt))
      ensures View() == DoWrite(old(View()), b0, f.stop, sizes).0
      ensures ok ==> writes == old(writes) + DoWrite(old(View()), b0, f.stop, sizes).1
      ensures ok ==> n == |b0| + if old(buffering) then 0 else |old(buffer)|
      ensures !ok ==> Failed(old(writes), writes, DoWrite(old(View()), b0, f.stop, sizes).1)
    {
      n, ok, sizes := 0, true, [];
      var b := b0;
      if buffering {
        buffer := buffer + b;
        return |b|, true, [];
      } else if |buffer| > 0 {
        b := buffer + b;
        buffer := [];
      }
      assert b == old(buffer) + b0;
      if sendPadding {
        pktCounter := (pktCounter + 1) % 0x1_0000_0000;
        if pktCounter < f.stop {
          var pktSizes := GenerateRecordPayloadSizes(f, pktCounter);
          n, ok := WritePacket(b, pktSizes);
          sizes := pktSizes;
          return;
        } else {
          sendPadding := false;
        }
      }
      n, ok := WritePlain(b);
    }

    /** A packet in one piece. */
    method WritePlain(b: seq<byte>) returns (n: nat, ok: bool)
      modifies this`writes
      ensures ok ==> writes == old(writes) + [b] && n == |b|
      ensures !ok ==> Failed(old(writes), writes, [b])
    {
      n, ok := ConnWrite(b);
      assert b[..|b|] == b;
      FailedAt(old(writes), [], b, n, []);
      assert old(writes) + [] + [b[..n]] == writes && [] + [b] + [] == [b];
    }

    /** The padding loop. */
    method WritePacket(b0: seq<byte>, sizes: seq<Size>) returns (n: nat, ok: bool)
      modifies this`writes
      ensures ok ==> writes == old(writes) + Cut(b0, sizes) && n == |b0|
      ensures !ok ==> Failed(old(writes), writes, Cut(b0, sizes))
    {
      var b, i := b0, 0;
      n, ok := 0, true;
      ghost var done: seq<seq<byte>> := [];
      while i < |sizes|
        invariant 0 <= i <= |sizes| && writes == old(writes) + done
        invariant Cut(b0, sizes) == done + Cut(b, sizes[i..])
        invariant n + |b| == |b0|
      {
        var l := sizes[i];
        CutNext(b, sizes, i);
        i := i + 1;
        var sent: nat;
        if l == CHECK_MARK {
          if |b| == 0 {
            return;
          } else {
            continue;
          }
        }
        var p, rest := NextPacket(b, l);
        assert Cut(b0, sizes) == (done + [p]) + Cut(rest, sizes[i..]);
        sent, ok := ConnWrite(p);
        if !ok {
          FailedAt(old(writes), done, p, sent, Cut(rest, sizes[i..]));
          return 0, false;
        }
        assert p[..|p|] == p;
        n, b, done := n + |b| - |rest|, rest, done + [p];
      }
      assert sizes[i..] == [];
      if |b| != 0 {
        var n2;
        n2, ok := ConnWrite(b);
        assert b[..|b|] == b;
        n := n + n2;
        FailedAt(old(writes), done, b, n2, []);
        assert (done + [b]) + [] == Cut(b0, sizes);
      }
    }

    /** One round of the padding loop: the bytes to write and the payload left. */
    method NextPacket(b: seq<byte>, l: nat) returns (p: seq<byte>, rest: seq<byte>)
      ensures p == Packet(b, l) && rest == After(b, l)
    {
      if |b| > l { // all payload
        p, rest := b[..l], b[l..];
      } else if |b| > 0 { // the last part of the payload, and padding
        var paddingLen := l - |b| - HEADER_SIZE;
        p, rest := b, [];
        if paddingLen > 0 {
          p := b + Waste(paddingLen);
          assert WasteAll([paddingLen]) == Waste(paddingLen) + WasteAll([]);
        } else {
          assert b + WasteAll([]) == b;
        }
      } else { // all padding
        p, rest := Waste(l), [];
        assert b + WasteAll([l]) == Waste(l) + WasteAll([]);
      }
    }

    /** The client's greeting: from here on frames are held back, the settings first. */
    method Greet(settings: Frame, f: Factory)
      modifies this
      ensures writes == old(writes)
      ensures View() == old(View()).(buffering := true, buffer := old(buffer) + Encode(settings))
    {
      SetBuffering(true);
      var n, ok, sizes := DoWriteConn(Encode(settings), f);
      assert !Truncated(writes[|old(writes)|..], []);
    }

    /** The SYN of the first stream is held back with the settings, to go out with the first
        data; later ones are written at once. */
    method OpenStream(sid: uint32, f: Factory) returns (ok: bool, ghost sizes: seq<Size>)
      modifies this
      ensures old(buffering) ==> ok && writes == old(writes)
      ensures ok ==>
                && View() == DoWrite(old(View()), Encode(Frame(SYN, sid, [])), f.stop, sizes).0.(buffering := false)
                && writes == old(writes) + DoWrite(old(View()), Encode(Frame(SYN, sid, [])), f.stop, sizes).1
      ensures !ok ==>
                && View() == DoWrite(old(View()), Encode(Frame(SYN, sid, [])), f.stop, sizes).0
                && Failed(old(writes), writes, DoWrite(old(View()), Encode(Frame(SYN, sid, [])), f.stop, sizes).1)
    {
      var n;
      n, ok, sizes := DoWriteConn(Encode(Frame(SYN, sid, [])), f);
      if !ok {
        return;
      }
      SetBuffering(false);
    }

    /** Turns holding frames back on or off. */
    method SetBuffering(on: bool)
      modifies this`buffering
      ensures View() == old(View()).(buffering := on)
    {
      buffering := on;
    }
  }
}
