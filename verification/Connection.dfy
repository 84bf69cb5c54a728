/** Messages over a socket that delivers its bytes in arbitrary fragments. */
module Connections {
  import opened Options
  import opened MWSteps
  import opened Blobs
  import opened BlobStreams

  /** The receiving side of a socket. Every read fails, gives nothing, or gives some of the bytes asked for;
      which of them is any function of the number of reads done before, as long as reads do not give nothing
      for ever. */
  class Socket {
    const fragment: nat -> int
    var nrReads: nat
    var incoming: seq<byte>

    constructor (fragment: nat -> int, incoming: seq<byte>)
      ensures this.fragment == fragment && this.incoming == incoming && nrReads == 0
    {
      this.fragment, this.incoming, nrReads := fragment, incoming, 0;
    }

    /** Read number m, not before n, gives something or fails. */
    ghost predicate Gives(n: nat, m: nat) { m >= n && fragment(m) != 0 }

    ghost predicate Delivers() { forall n: nat :: GivesFrom(n) }

    ghost predicate GivesFrom(n: nat) { exists m: nat :: Gives(n, m) }

    /** One of the reads from number n on has failed. */
    ghost predicate FailedSince(n: nat)
      reads this
    {
      exists m: nat :: n <= m < nrReads && fragment(m) < 0
    }

    /** None for a read that fails. */
    method Read(size: nat) returns (data: Option<seq<byte>>)
      requires size > 0 && size <= |incoming|
      modifies this
      ensures nrReads == old(nrReads) + 1
      ensures data.None? <==> fragment(old(nrReads)) < 0
      ensures data.None? ==> incoming == old(incoming)
      ensures data.Some? ==> |data.value| <= size && (data.value == [] <==> fragment(old(nrReads)) == 0)
      ensures data.Some? ==> data.value + incoming == old(incoming)
    {
      var n := fragment(nrReads);
      nrReads := nrReads + 1;
      if n < 0 { return None; }
      if n > size { n := size; }
      data := Some(incoming[..n]);
      incoming := incoming[n..];
    }
  }

  /** The length of a message, from its header. */
  function LengthOf(hdr: seq<byte>): nat
    requires |hdr| >= HEADER
  {
    FromNum(hdr[13] == Format(true), hdr[..8])
  }

  /** A whole message whose header tells its length, and the length is an int. */
  predicate Framed(s: seq<byte>) { HEADER <= |s| < 0x8000_0000 && LengthOf(s) == |s| }

  class SocketConnection {
    const itsDataSocket: Socket

    constructor (socket: Socket)
      ensures itsDataSocket == socket
    {
      itsDataSocket := socket;
    }

    /** Receives size bytes in however many fragments they come, none if a read fails. */
    method Receive(size: nat) returns (buf: Option<seq<byte>>)
      requires size <= |itsDataSocket.incoming| && itsDataSocket.Delivers()
      modifies itsDataSocket
      ensures itsDataSocket.nrReads >= old(itsDataSocket.nrReads)
      ensures buf.None? <==> itsDataSocket.FailedSince(old(itsDataSocket.nrReads))
      ensures buf.Some? ==> buf.value == old(itsDataSocket.incoming)[..size]
      ensures buf.Some? ==> itsDataSocket.incoming == old(itsDataSocket.incoming)[size..]
    {
      ghost var all, first := itsDataSocket.incoming, itsDataSocket.nrReads;
      var got, left := [], size;
      assert itsDataSocket.GivesFrom(first);
      ghost var next: nat :| itsDataSocket.Gives(first, next);
      while left > 0
        invariant 0 <= left <= size == |got| + left && got + itsDataSocket.incoming == all
        invariant first <= itsDataSocket.nrReads && !itsDataSocket.FailedSince(first)
        invariant itsDataSocket.nrReads <= next && itsDataSocket.fragment(next) != 0
        decreases left, next - itsDataSocket.nrReads
      {
        ghost var nr := itsDataSocket.nrReads;
        var data := itsDataSocket.Read(left);
        if data.None? {
          assert itsDataSocket.fragment(nr) < 0;
          return None;
        }
        got := got + data.value;
        left := left - |data.value|;
        if data.value != [] {
          assert itsDataSocket.GivesFrom(itsDataSocket.nrReads);
          next :| itsDataSocket.Gives(itsDataSocket.nrReads, next);
        }
      }
      buf := Some(got);
    }

    /** Reads one message: the header first, because the socket does not know the length of a message. */
    method Read(ghost msg: seq<byte>) returns (buf: Option<seq<byte>>)
      requires Framed(msg) && msg <= itsDataSocket.incoming && itsDataSocket.Delivers()
      modifies itsDataSocket
      ensures itsDataSocket.nrReads >= old(itsDataSocket.nrReads)
      ensures buf.None? <==> itsDataSocket.FailedSince(old(itsDataSocket.nrReads))
      ensures buf.Some? ==> buf.value == msg && itsDataSocket.incoming == old(itsDataSocket.incoming)[|msg|..]
    {
      ghost var all := itsDataSocket.incoming;
      var hdr := Receive(HEADER);
      if hdr.None? { return None; }
      assert hdr.value == msg[..HEADER] && hdr.value[..8] == msg[..8] && hdr.value[13] == msg[13];
      var msgLen := LengthOf(hdr.value);
      var body := Receive(msgLen - HEADER);
      if body.None? { return None; }
      assert all[HEADER..][..msgLen - HEADER] == msg[HEADER..];
      assert all[HEADER..][msgLen - HEADER..] == all[msgLen..];
      buf := Some(hdr.value + body.value);
    }
  }

  /** MWBlobIn, reading a step, and finish; host is whether this machine is big endian. */
  method ReadStepMessage(reg: Registry, host: bool, buf: seq<byte>) returns (r: Option<StepMessage>)
    ensures r == DecodeMessage(reg, buf)
  {
    hide Decode, FromNum, ParseHeader, ReadHeader;
    var bin := new BlobIStream(buf, host);
    assert buf[0..] == buf;
    var at := HEADER + |MW|;
    var ok := bin.GetNextType();
    if !ok { return None; }
    bin.itsHasCachedType := false;
    if bin.itsObjectType != MW || bin.itsVersion != 1 { return None; }
    HeaderAt(bin.big, 0, buf, 0);
    var envelope := bin.GetBuf(12 + TIMES);
    if envelope.None? { return None; }
    var step := bin.GetStep(reg);
    if step.None? { return None; }
    ok := bin.GetEnd();
    if !ok { return None; }
    EnvelopeAt(bin.big, buf, at);
    r := Some(StepMessage(ParseEnvelope(bin.big, envelope.value), step.value));
  }

  lemma EnvelopeAt(big: bool, buf: seq<byte>, at: nat)
    requires at + 12 + TIMES <= |buf|
    ensures ParseEnvelope(big, buf[at..]) == ParseEnvelope(big, buf[at..at + 12 + TIMES])
  {
    var a, b := buf[at..], buf[at..at + 12 + TIMES];
    assert forall k :: 0 <= k < |b| ==> a[k] == b[k];
    assert a[..4] == b[..4];
    assert a[4..8] == b[4..8];
    assert a[8..12] == b[8..12];
    assert a[12..12 + TIMES] == b[12..12 + TIMES];
  }

  // ---------------------------------------------------------------- whole conversations

  /** A step message from a machine with the given byte order. */
  datatype Sent = Sent(big: bool, envelope: Envelope, step: MWStep)

  predicate SentFits(reg: Registry, m: Sent) {
    EnvelopeFits(m.envelope) && Fits(reg, 1, m.step) &&
    |Frame(m.big, m.envelope, Encode(reg, m.big, 1, m.step))| < 0x8000_0000
  }

  function Bytes(reg: Registry, m: Sent): seq<byte>
    requires SentFits(reg, m)
  {
    Frame(m.big, m.envelope, Encode(reg, m.big, 1, m.step))
  }

  /** The bytes of the messages one after the other. */
  function Wire(reg: Registry, ms: seq<Sent>): seq<byte>
    requires forall i :: 0 <= i < |ms| ==> SentFits(reg, ms[i])
  {
    if ms == [] then [] else Bytes(reg, ms[0]) + Wire(reg, ms[1..])
  }

  lemma BytesFramed(reg: Registry, m: Sent)
    requires SentFits(reg, m)
    ensures Framed(Bytes(reg, m)) && DecodeMessage(reg, Bytes(reg, m)) == Some(StepMessage(m.envelope, m.step))
  {
    hide Encode, Decode, EnvelopeBytes;
    var payload := Encode(reg, m.big, 1, m.step);
    var s := Bytes(reg, m);
    Pow256Values();
    MessageRoundTrip(reg, m.big, m.envelope, m.step);
    FormatAt(m.big, EnvelopeBytes(m.big, m.envelope) + payload);
    NumRoundTrip(m.big, |s|, 8);
    assert s[..8] == Num(m.big, |s|, 8);
  }

  /** Any sequence of step messages is rebuilt from any fragmentation of its bytes, unless a read fails. */
  method ReceiveSteps(conn: SocketConnection, reg: Registry, host: bool, n: nat, ghost sent: seq<Sent>,
                      ghost later: seq<byte>)
    returns (ok: bool, got: seq<StepMessage>)
    requires |sent| == n && forall i :: 0 <= i < n ==> SentFits(reg, sent[i])
    requires conn.itsDataSocket.incoming == Wire(reg, sent) + later && conn.itsDataSocket.Delivers()
    modifies conn.itsDataSocket
    ensures ok <==> !conn.itsDataSocket.FailedSince(old(conn.itsDataSocket.nrReads))
    ensures |got| <= n && forall i :: 0 <= i < |got| ==> got[i] == StepMessage(sent[i].envelope, sent[i].step)
    ensures ok ==> |got| == n && conn.itsDataSocket.incoming == later
  {
    hide SentFits, DecodeMessage, Framed, Bytes;
    got := [];
    assert sent[0..] == sent;
    for i := 0 to n
      invariant |got| == i && forall j :: 0 <= j < i ==> got[j] == StepMessage(sent[j].envelope, sent[j].step)
      invariant conn.itsDataSocket.incoming == Wire(reg, sent[i..]) + later
      invariant conn.itsDataSocket.nrReads >= old(conn.itsDataSocket.nrReads)
      invariant !conn.itsDataSocket.FailedSince(old(conn.itsDataSocket.nrReads))
    {
      ghost var msg := Bytes(reg, sent[i]);
      BytesFramed(reg, sent[i]);
      assert sent[i..][1..] == sent[i + 1..];
      WireParts(reg, sent[i..], later);
      var buf := conn.Read(msg);
      if buf.None? { return false, got; }
      var step := ReadStepMessage(reg, host, buf.value);
      got := got + [step.value];
    }
    NoWire(reg, sent[n..], later);
    ok := true;
  }

  lemma WireParts(reg: Registry, ms: seq<Sent>, later: seq<byte>)
    requires ms != [] && forall i :: 0 <= i < |ms| ==> SentFits(reg, ms[i])
    ensures Bytes(reg, ms[0]) <= Wire(reg, ms) + later
    ensures (Wire(reg, ms) + later)[|Bytes(reg, ms[0])|..] == Wire(reg, ms[1..]) + later
  {
    var first, rest := Bytes(reg, ms[0]), Wire(reg, ms[1..]);
    assert Wire(reg, ms) == first + rest;
    hide *;
    FirstPart(first, rest, later);
  }

  lemma FirstPart(a: seq<byte>, b: seq<byte>, c: seq<byte>)
    ensures a <= a + b + c && (a + b + c)[|a|..] == b + c
  {
  }

  lemma NoWire(reg: Registry, ms: seq<Sent>, later: seq<byte>)
    requires ms == []
    ensures Wire(reg, ms) + later == later
  {
  }
}
