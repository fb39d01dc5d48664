/** The INSTREAM exchange with clamd (apps/worker/src/clamav.ts): the command, the file cut into
    length-prefixed frames, and a frame of length zero. */
module ClamdFraming {
  import opened Numbers
  import opened Optional
  import opened Text

  type Byte = b: int | 0 <= b < 256

  /** INSTREAM_CHUNK_BYTES. */
  const CHUNK: Positive := 65536

  /** "zINSTREAM" and its terminating zero byte. */
  const COMMAND: seq<Byte> := [122, 73, 78, 83, 84, 82, 69, 65, 77, 0]

  // ---------------------------------------------------------------- 32-bit lengths

  /** `writeUInt32BE(n)`. */
  function WriteUInt32(n: nat): seq<Byte>
    requires n < 0x1_0000_0000
  {
    [n / 0x100_0000, n / 0x1_0000 % 0x100, n / 0x100 % 0x100, n % 0x100]
  }

  function ReadUInt32(b: seq<Byte>): nat
    requires |b| == 4
  {
    (((b[0] as int) * 0x100 + b[1]) * 0x100 + b[2]) * 0x100 + b[3]
  }

  lemma ReadWriteUInt32(n: nat)
    requires n < 0x1_0000_0000
    ensures ReadUInt32(WriteUInt32(n)) == n
  {
    var high, middle := n / 0x1_0000, n / 0x100;
    assert n / 0x100_0000 == high / 0x100;
    assert high == high / 0x100 * 0x100 + high % 0x100;
    assert middle == high * 0x100 + middle % 0x100;
    assert n == middle * 0x100 + n % 0x100;
  }

  // ---------------------------------------------------------------- the daemon's side

  /** A reader of the framed stream: the payloads up to the zero frame and the bytes after it, or
      None when the bytes end too soon. */
  function ReadFrames(bytes: seq<Byte>): Option<(seq<seq<Byte>>, seq<Byte>)>
    decreases |bytes|
  {
    if |bytes| < 4 then None
    else
      var n := ReadUInt32(bytes[..4]);
      if n == 0 then Some(([], bytes[4..]))
      else if |bytes| < 4 + n then None
      else
        match ReadFrames(bytes[4 + n..])
        case None => None
        case Some((payloads, rest)) => Some(([bytes[4..4 + n]] + payloads, rest))
  }

  function ReadStream(bytes: seq<Byte>): Option<(seq<seq<Byte>>, seq<Byte>)> {
    if |COMMAND| <= |bytes| && bytes[..|COMMAND|] == COMMAND then ReadFrames(bytes[|COMMAND|..]) else None
  }

  // ---------------------------------------------------------------- the frames of a list of payloads

  predicate Sendable(payload: seq<Byte>) {
    1 <= |payload| <= CHUNK
  }

  ghost predicate AllSendable(payloads: seq<seq<Byte>>) {
    forall k :: 0 <= k < |payloads| ==> Sendable(payloads[k])
  }

  function Frame(payload: seq<Byte>): seq<Byte>
    requires Sendable(payload)
  {
    WriteUInt32(|payload|) + payload
  }

  function Frames(payloads: seq<seq<Byte>>): seq<Byte>
    requires AllSendable(payloads)
  {
    if payloads == [] then [] else Frame(payloads[0]) + Frames(payloads[1..])
  }

  lemma {:induction false} FramesSnoc(payloads: seq<seq<Byte>>, p: seq<Byte>)
    requires AllSendable(payloads) && Sendable(p)
    ensures AllSendable(payloads + [p])
    ensures Frames(payloads + [p]) == Frames(payloads) + Frame(p)
  {
    if payloads == [] {
      assert [p][1..] == [];
      assert payloads + [p] == [p];
    } else {
      FramesSnoc(payloads[1..], p);
      assert (payloads + [p])[1..] == payloads[1..] + [p];
      assert (payloads + [p])[0] == payloads[0];
    }
  }

  /** Reading one frame off the front. */
  lemma ReadOneFrame(p: seq<Byte>, rest: seq<Byte>)
    requires Sendable(p)
    ensures ReadFrames(Frame(p) + rest)
         == match ReadFrames(rest) case None => None case Some((ps, after)) => Some(([p] + ps, after))
  {
    var bytes := Frame(p) + rest;
    assert bytes[..4] == WriteUInt32(|p|);
    ReadWriteUInt32(|p|);
    assert bytes[4..4 + |p|] == p && bytes[4 + |p|..] == rest;
  }

  lemma ReadZeroFrame(after: seq<Byte>)
    ensures ReadFrames(WriteUInt32(0) + after) == Some(([], after))
  {
    var bytes := WriteUInt32(0) + after;
    assert bytes[..4] == WriteUInt32(0) && bytes[4..] == after;
    ReadWriteUInt32(0);
  }

  lemma FirstFrame(payloads: seq<seq<Byte>>, tail: seq<Byte>)
    requires AllSendable(payloads) && payloads != []
    ensures Frames(payloads) + tail == Frame(payloads[0]) + (Frames(payloads[1..]) + tail)
  {
    ConcatIsAssociative(Frame(payloads[0]), Frames(payloads[1..]), tail);
  }

  lemma ConcatIsAssociative(a: seq<Byte>, b: seq<Byte>, c: seq<Byte>)
    ensures (a + b) + c == a + (b + c)
  {
  }

  /** The reader inverts the framing, whatever bytes follow the zero frame. */
  lemma {:induction false} ReadInvertsFrames(payloads: seq<seq<Byte>>, after: seq<Byte>)
    requires AllSendable(payloads)
    ensures ReadFrames(Frames(payloads) + (WriteUInt32(0) + after)) == Some((payloads, after))
    decreases |payloads|
  {
    var tail := WriteUInt32(0) + after;
    if payloads == [] {
      ReadZeroFrame(after);
      assert Frames(payloads) + tail == tail;
    } else {
      ReadInvertsFrames(payloads[1..], after);
      ReadOneFrame(payloads[0], Frames(payloads[1..]) + tail);
      FirstFrame(payloads, tail);
      assert payloads == [payloads[0]] + payloads[1..];
    }
  }

  lemma ConcatSnoc(parts: seq<seq<Byte>>, p: seq<Byte>)
    ensures Concat(parts + [p]) == Concat(parts) + p
  {
    assert (parts + [p])[..|parts|] == parts;
  }

  // ---------------------------------------------------------------- the worker's side

  /** The frames for the first `offset` bytes of the file are written. */
  ghost predicate Written(buf: seq<Byte>, offset: nat, payloads: seq<seq<Byte>>, framed: seq<Byte>) {
    && offset <= |buf|
    && AllSendable(payloads)
    && framed == Frames(payloads)
    && Concat(payloads) == buf[..offset]
    && |payloads| + CeilDiv(|buf| - offset, CHUNK) == CeilDiv(|buf|, CHUNK)
    && |framed| == offset + 4 * |payloads|
  }

  lemma WriteNext(buf: seq<Byte>, offset: nat, payloads: seq<seq<Byte>>, framed: seq<Byte>, end: nat)
    requires Written(buf, offset, payloads, framed)
    requires offset < |buf| && end == Min(offset + CHUNK, |buf|)
    ensures Written(buf, end, payloads + [buf[offset..end]], framed + Frame(buf[offset..end]))
  {
    var slice := buf[offset..end];
    FramesSnoc(payloads, slice);
    ConcatSnoc(payloads, slice);
    assert buf[..end] == buf[..offset] + slice;
  }

  /** The payloads that the daemon reads from a complete stream. */
  ghost function Payloads(sent: seq<Byte>): seq<seq<Byte>>
    requires ReadStream(sent).Some?
  {
    ReadStream(sent).value.0
  }

  /** The writes made once the socket is connected. */
  method Instream(buf: seq<Byte>) returns (sent: seq<Byte>)
    // the daemon reads a complete stream with no byte left over
    ensures ReadStream(sent).Some? && ReadStream(sent).value.1 == []
    // its payloads together are the file
    ensures Concat(Payloads(sent)) == buf
    // none is empty, so nothing before the end reads as the end; none is longer than a chunk
    ensures forall k :: 0 <= k < |Payloads(sent)| ==> 1 <= |Payloads(sent)[k]| <= CHUNK
    ensures |Payloads(sent)| == CeilDiv(|buf|, CHUNK)
    ensures |sent| == |COMMAND| + |buf| + 4 * |Payloads(sent)| + 4
  {
    sent := COMMAND;
    var offset := 0;
    ghost var payloads: seq<seq<Byte>>, framed: seq<Byte> := [], [];
    while offset < |buf|
      invariant Written(buf, offset, payloads, framed)
      invariant sent == COMMAND + framed
    {
      var end := Min(offset + CHUNK, |buf|);
      var slice := buf[offset..end];
      WriteNext(buf, offset, payloads, framed, end);
      sent := sent + WriteUInt32(|slice|);
      sent := sent + slice;
      framed := framed + Frame(slice);
      payloads := payloads + [slice];
      offset := end;
    }
    assert buf[..|buf|] == buf;
    sent := sent + WriteUInt32(0);
    StreamIsRead(payloads, sent);
  }

  lemma StreamIsRead(payloads: seq<seq<Byte>>, sent: seq<Byte>)
    requires AllSendable(payloads)
    requires sent == (COMMAND + Frames(payloads)) + WriteUInt32(0)
    ensures ReadStream(sent) == Some((payloads, []))
  {
    var framed := Frames(payloads) + WriteUInt32(0);
    ReadInvertsFrames(payloads, []);
    assert WriteUInt32(0) + [] == WriteUInt32(0);
    assert sent == COMMAND + framed;
    SplitAfter(COMMAND, framed);
  }

  lemma SplitAfter(a: seq<Byte>, b: seq<Byte>)
    ensures (a + b)[..|a|] == a && (a + b)[|a|..] == b
  {
  }

  /** Two files never produce the same bytes on the wire. */
  lemma FramingIsInjective(a: seq<seq<Byte>>, b: seq<seq<Byte>>, afterA: seq<Byte>, afterB: seq<Byte>)
    requires AllSendable(a) && AllSendable(b)
    requires Frames(a) + (WriteUInt32(0) + afterA) == Frames(b) + (WriteUInt32(0) + afterB)
    ensures a == b && afterA == afterB
  {
    ReadInvertsFrames(a, afterA);
    ReadInvertsFrames(b, afterB);
  }
}
