/**
 DNS over a stream: the two-octet length prefix, and readers that put messages
 back together however the stream is split into reads (section 4.2.2 of RFC 1035).
 */
module Framing {
  import opened Bytes

  /** A message behind its length; `uint16(len(msg))` truncates. */
  function FrameOf(msg: Octets): Octets {
    U16(|msg| % 0x1_0000) + msg
  }

  method Frame(msg: Octets) returns (out: Octets)
    ensures out == FrameOf(msg)
  {
    var buf := new byte[2 + |msg|](_ => 0);
    var size: u16 := |msg| % 0x1_0000;
    buf[0] := size / 0x100;
    buf[1] := size % 0x100;
    forall i | 0 <= i < |msg| {
      buf[2 + i] := msg[i];
    }
    out := buf[..];
  }

  function FrameAll(msgs: seq<Octets>): Octets {
    if msgs == [] then [] else FrameOf(msgs[0]) + FrameAll(msgs[1..])
  }

  /** The whole messages at the front of a stream, in order. */
  function Deframe(data: Octets): seq<Octets> {
    if |data| < 2 then []
    else
      var size := ReadU16(data, 0) as nat;
      if 2 + size > |data| then [] else [data[2..2 + size]] + Deframe(data[2 + size..])
  }

  /** What is left after them: less than one whole frame. */
  function Leftover(data: Octets): Octets {
    if |data| < 2 then data
    else
      var size := ReadU16(data, 0) as nat;
      if 2 + size > |data| then data else Leftover(data[2 + size..])
  }

  lemma DeframeStep(data: Octets)
    requires |data| >= 2
    ensures var size, rest := ReadU16(data, 0) as nat, data[2..];
            if size > |rest| then Deframe(data) == [] && Leftover(data) == data
            else Deframe(data) == [rest[..size]] + Deframe(rest[size..]) && Leftover(data) == Leftover(rest[size..])
  {
    var size := ReadU16(data, 0) as nat;
    if size <= |data[2..]| {
      assert data[2..][..size] == data[2..2 + size] && data[2..][size..] == data[2 + size..];
    }
  }

  // ---------------------------------------------------------- a connection

  /** The read side of a connection: what has yet to arrive, and in what pieces. */
  class Conn {
    var pending: Octets
    var pieces: seq<nat>

    constructor (data: Octets, pieces: seq<nat>)
      ensures pending == data && this.pieces == pieces
    {
      pending := data;
      this.pieces := pieces;
    }

    /** One `Read` into `buf[from..]`: at least an octet, as much as the next piece brings, or the end. */
    method Read(buf: array<byte>, from: nat) returns (n: nat, eof: bool)
      requires from < buf.Length
      modifies this, buf
      ensures eof <==> old(pending) == []
      ensures eof ==> n == 0
      ensures !eof ==> 1 <= n
      ensures from + n <= buf.Length && n <= |old(pending)| && pending == old(pending)[n..]
      ensures buf[from..from + n] == old(pending)[..n]
      ensures buf[..from] == old(buf[..from]) && buf[from + n..] == old(buf[from + n..])
    {
      if pending == [] {
        return 0, true;
      }
      var piece := if pieces == [] || pieces[0] == 0 then 1 else pieces[0];
      if pieces != [] { pieces := pieces[1..]; }
      n := Least(piece, Least(|pending|, buf.Length - from));
      forall i | 0 <= i < n {
        buf[from + i] := pending[i];
      }
      pending := pending[n..];
      eof := false;
    }
  }

  function Least(a: nat, b: nat): nat {
    if a <= b then a else b
  }

  /** `readFull`: the buffer filled, or the stream ended first. */
  method ReadFull(c: Conn, buf: array<byte>) returns (got: nat, ok: bool)
    modifies c, buf
    ensures got == Least(buf.Length, |old(c.pending)|) && (ok <==> got == buf.Length)
    ensures buf[..got] == old(c.pending)[..got] && c.pending == old(c.pending)[got..]
  {
    got := 0;
    while got < buf.Length
      invariant got <= buf.Length && got <= |old(c.pending)|
      invariant buf[..got] == old(c.pending)[..got] && c.pending == old(c.pending)[got..]
    {
      var n, eof := c.Read(buf, got);
      if eof {
        return got, false;
      }
      assert buf[..got + n] == buf[..got] + buf[got..got + n];
      got := got + n;
    }
    return got, true;
  }

  /** One length-prefixed message in a buffer of its own, or none when the stream ends inside or before it. */
  method ReadMessage(c: Conn) returns (body: array<byte>, ok: bool)
    modifies c
    ensures fresh(body) && (ok <==> Deframe(old(c.pending)) != [])
    ensures ok ==> Deframe(old(c.pending)) == [body[..]] + Deframe(c.pending) && |c.pending| < |old(c.pending)|
  {
    ghost var data := c.pending;
    var hdr := new byte[2](_ => 0);
    var got, whole := ReadFull(c, hdr);
    if !whole {
      return hdr, false;
    }
    var size := hdr[..2][0] as nat * 0x100 + hdr[..2][1];
    assert size == ReadU16(data, 0);
    DeframeStep(data);
    hide Deframe;
    body := new byte[size](_ => 0);
    got, whole := ReadFull(c, body);
    assert whole ==> body[..] == body[..size] == data[2..][..size];
    return body, whole;
  }

  /** The reading loop both readers share: every message until the stream ends. */
  method ReadMessages(c: Conn) returns (msgs: seq<Octets>)
    modifies c
    ensures msgs == Deframe(old(c.pending))
  {
    msgs := [];
    while true
      invariant Deframe(old(c.pending)) == msgs + Deframe(c.pending)
      decreases |c.pending|
    {
      var msg, ok := ReadMessage(c);
      if !ok {
        assert msgs + [] == msgs;
        return;
      }
      msgs := msgs + [msg[..]];
    }
  }

  // ---------------------------------------------------------- framing undone

  predicate AllFit(msgs: seq<Octets>) {
    forall i :: 0 <= i < |msgs| ==> |msgs[i]| < 0x1_0000
  }

  lemma FrameParts(msg: Octets, tail: Octets)
    ensures var data := FrameOf(msg) + tail;
            && |data| == 2 + |msg| + |tail| && ReadU16(data, 0) == |msg| % 0x1_0000
            && data[2..2 + |msg|] == msg && data[2 + |msg|..] == tail
  {
    assert |FrameOf(msg)| == 2 + |msg| && FrameOf(msg)[2..] == msg;
  }

  lemma DeframeOne(msg: Octets, tail: Octets)
    requires |msg| < 0x1_0000
    ensures Deframe(FrameOf(msg) + tail) == [msg] + Deframe(tail)
  {
    hide FrameOf, ReadU16;
    FrameParts(msg, tail);
  }

  /** Messages of up to 65535 octets come back exactly, in order, before whatever follows them. */
  lemma {:induction false} DeframeUndoesFrame(msgs: seq<Octets>, tail: Octets)
    requires AllFit(msgs)
    ensures Deframe(FrameAll(msgs) + tail) == msgs + Deframe(tail)
  {
    hide FrameOf;
    if msgs == [] {
      assert FrameAll(msgs) + tail == tail;
      assert msgs + Deframe(tail) == Deframe(tail);
    } else {
      assert FrameAll(msgs) + tail == FrameOf(msgs[0]) + (FrameAll(msgs[1..]) + tail);
      DeframeOne(msgs[0], FrameAll(msgs[1..]) + tail);
      DeframeUndoesFrame(msgs[1..], tail);
      assert msgs == [msgs[0]] + msgs[1..];
      assert msgs + Deframe(tail) == [msgs[0]] + (msgs[1..] + Deframe(tail));
    }
  }

  /** A message survives its frame iff its length fits the prefix. */
  lemma FrameSurvivesIff(msg: Octets)
    ensures Deframe(FrameOf(msg)) == [msg] <==> |msg| < 0x1_0000
  {
    if |msg| < 0x1_0000 {
      DeframeOne(msg, []);
      assert FrameOf(msg) + [] == FrameOf(msg);
      assert [msg] + Deframe([]) == [msg];
    } else {
      var data := FrameOf(msg);
      assert ReadU16(data, 0) == |msg| % 0x1_0000;
      assert |Deframe(data)[0]| == |msg| % 0x1_0000;
    }
  }

  /** One octet too many, and the reader takes the frame for an empty message and the message for a stream. */
  lemma OneOctetTooMany(msg: Octets)
    requires |msg| == 0x1_0000
    ensures Deframe(FrameOf(msg)) == [[]] + Deframe(msg)
  {
    hide Deframe, FrameOf, ReadU16;
    FrameParts(msg, []);
    assert FrameOf(msg) + [] == FrameOf(msg);
    DeframeStep(FrameOf(msg));
    assert msg[0..] == msg;
  }

  /** What a stream has delivered so far is never taken back by what follows. */
  lemma {:induction false} DeframeIsMonotone(data: Octets, more: Octets)
    ensures Deframe(data + more) == Deframe(data) + Deframe(Leftover(data) + more)
    decreases |data|
  {
    hide Deframe, Leftover;
    if |data| < 2 {
      ShortStream(data);
      assert [] + Deframe(data + more) == Deframe(data + more);
    } else {
      var size, rest := ReadU16(data, 0) as nat, data[2..];
      assert ReadU16(data + more, 0) == size && (data + more)[2..] == rest + more;
      DeframeStep(data);
      if size <= |rest| {
        DeframeStep(data + more);
        assert (rest + more)[..size] == rest[..size] && (rest + more)[size..] == rest[size..] + more;
        DeframeIsMonotone(rest[size..], more);
      } else {
        assert [] + Deframe(data + more) == Deframe(data + more);
      }
    }
  }

  lemma ShortStream(data: Octets)
    requires |data| < 2
    ensures Deframe(data) == [] && Leftover(data) == data
  {
  }
}
