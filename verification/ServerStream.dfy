/** What the server makes of the bytes a client sends (`Session::readLoop`), as a pure parser. */
module ServerStream {
  import opened Wire
  import opened ServerProtocol
  import ClientCodec

  /** The frames read, the bytes of an unfinished frame, and whether a header was refused. */
  datatype Parsed = Parsed(frames: seq<Frame>, rest: seq<byte>, refused: bool)

  function Parse(stream: seq<byte>): Parsed
    decreases |stream|
  {
    if |stream| < FRAME_HEADER_SIZE then
      Parsed([], stream, false)
    else
      var h := ReadHeader(stream[..FRAME_HEADER_SIZE]);
      if !Acceptable(h) then
        Parsed([], stream, true)
      else if |stream| < FRAME_HEADER_SIZE + h.length then
        Parsed([], stream, false)
      else
        var n := FRAME_HEADER_SIZE + h.length;
        Prepend([WithPayload(h, stream[FRAME_HEADER_SIZE..n])], Parse(stream[n..]))
  }

  function WithPayload(h: Header, payload: seq<byte>): Frame {
    Frame(h.version, h.frameType, h.flags, payload)
  }

  function Prepend(fs: seq<Frame>, p: Parsed): Parsed {
    p.(frames := fs + p.frames)
  }

  lemma PrependTwice(fs: seq<Frame>, gs: seq<Frame>, p: Parsed)
    ensures Prepend(fs, Prepend(gs, p)) == Prepend(fs + gs, p)
  {
    assert fs + (gs + p.frames) == (fs + gs) + p.frames;
  }

  /** No bytes are pending and no header was refused. */
  predicate Clean(p: Parsed) {
    p.rest == [] && !p.refused
  }

  /** A header the server accepts, followed by as many bytes as it announces, is one more frame. */
  lemma ParseFrame(header: seq<byte>, payload: seq<byte>, more: seq<byte>)
    requires |header| == FRAME_HEADER_SIZE
    requires Acceptable(ReadHeader(header)) && |payload| == ReadHeader(header).length
    ensures Parse(header + payload + more) == Prepend([WithPayload(ReadHeader(header), payload)], Parse(more))
  {
    hide ReadHeader;
    var stream := header + payload + more;
    var n := FRAME_HEADER_SIZE + |payload|;
    assert stream[..FRAME_HEADER_SIZE] == header;
    assert stream[FRAME_HEADER_SIZE..n] == payload;
    assert stream[n..] == more;
  }

  /** The front of a clean stream is a frame, whatever follows the stream. */
  lemma FirstFrame(stream: seq<byte>, more: seq<byte>) returns (f: Frame, rest: seq<byte>)
    requires Clean(Parse(stream)) && stream != []
    ensures |rest| < |stream| && Clean(Parse(rest))
    ensures Parse(stream) == Prepend([f], Parse(rest))
    ensures Parse(stream + more) == Prepend([f], Parse(rest + more))
  {
    hide ReadHeader;
    var header := stream[..FRAME_HEADER_SIZE];
    var n := FRAME_HEADER_SIZE + ReadHeader(header).length;
    var payload := stream[FRAME_HEADER_SIZE..n];
    f, rest := WithPayload(ReadHeader(header), payload), stream[n..];
    assert stream + more == header + payload + (rest + more);
    ParseFrame(header, payload, rest + more);
  }

  lemma {:induction false} ParseAppend(stream: seq<byte>, more: seq<byte>)
    requires Clean(Parse(stream))
    ensures Parse(stream + more) == Prepend(Parse(stream).frames, Parse(more))
    decreases |stream|
  {
    if stream == [] {
      assert stream + more == more;
    } else {
      hide Parse;
      var f, rest := FirstFrame(stream, more);
      ParseAppend(rest, more);
      PrependTwice([f], Parse(rest).frames, Parse(more));
    }
  }

  /** The frames a client may send: what `FrameCodec::encode` writes for the current protocol version. */
  predicate Sendable(f: Frame) {
    f.version == PROTOCOL_VERSION && 1 <= f.frameType <= 4 && |f.payload| <= MAX_PAYLOAD_SIZE
  }

  lemma ParseOneSerialized(f: Frame, more: seq<byte>)
    requires Sendable(f)
    ensures Parse(Serialize(f) + more) == Prepend([f], Parse(more))
  {
    HeaderRoundTrip(FrameHeader(f));
    hide Parse;
    hide ReadHeader;
    ParseFrame(HeaderBytes(FrameHeader(f)), f.payload, more);
  }

  /** Every stream of encoded frames is parsed back into exactly those frames. */
  lemma {:induction false} ParseSerialized(fs: seq<Frame>, more: seq<byte>)
    requires forall f :: f in fs ==> Sendable(f)
    ensures Parse(SerializeAll(fs) + more) == Prepend(fs, Parse(more))
    decreases |fs|
  {
    if fs == [] {
      assert SerializeAll(fs) + more == more;
    } else {
      var f := fs[0];
      assert Sendable(f);
      hide Parse;
      hide Serialize;
      ParseSerialized(fs[1..], more);
      ParseOneSerialized(f, SerializeAll(fs[1..]) + more);
      assert SerializeAll(fs) + more == Serialize(f) + (SerializeAll(fs[1..]) + more);
      PrependTwice([f], fs[1..], Parse(more));
      assert [f] + fs[1..] == fs;
    }
  }

  /** What the read loop does with a frame. */
  datatype Action = Pong | Dispatch(payload: seq<byte>) | Ignore

  function ActionOf(f: Frame): Action {
    if f.frameType == PINGPONG && f.payload == [] then Pong
    else if f.frameType == REQUEST || f.frameType == NOTIFICATION then Dispatch(f.payload)
    else Ignore
  }

  function ActionsOf(fs: seq<Frame>): (r: seq<Action>)
    ensures |r| == |fs|
    ensures forall i :: 0 <= i < |fs| ==> r[i] == ActionOf(fs[i])
  {
    seq(|fs|, i requires 0 <= i < |fs| => ActionOf(fs[i]))
  }

  /** The texts that are dispatched, in order. */
  function Dispatched(actions: seq<Action>): seq<seq<byte>> {
    if actions == [] then []
    else (if actions[0].Dispatch? then [actions[0].payload] else []) + Dispatched(actions[1..])
  }

  function Pongs(actions: seq<Action>): nat {
    if actions == [] then 0 else (if actions[0].Pong? then 1 else 0) + Pongs(actions[1..])
  }

  /** The payloads of the requests and notifications among the frames. */
  function Requests(fs: seq<Frame>): seq<seq<byte>> {
    if fs == [] then []
    else (if fs[0].frameType in {1, 3} then [fs[0].payload] else []) + Requests(fs[1..])
  }

  function EmptyPings(fs: seq<Frame>): nat {
    if fs == [] then 0 else (if fs[0].frameType == 4 && |fs[0].payload| == 0 then 1 else 0) + EmptyPings(fs[1..])
  }

  lemma {:induction false} ActionsMeaning(fs: seq<Frame>)
    ensures Dispatched(ActionsOf(fs)) == Requests(fs) && Pongs(ActionsOf(fs)) == EmptyPings(fs)
  {
    if fs != [] {
      ActionsMeaning(fs[1..]);
      assert ActionsOf(fs)[1..] == ActionsOf(fs[1..]);
    }
  }

  /**
   What a stream of frames from a client leads to: every request and notification is dispatched,
   with its payload, in order; every empty heartbeat is answered; and that is all.
   */
  lemma ClientStream(fs: seq<Frame>)
    requires forall f :: f in fs ==> Sendable(f)
    ensures var parsed := Parse(SerializeAll(fs));
            && Clean(parsed)
            && Dispatched(ActionsOf(parsed.frames)) == Requests(fs) && Pongs(ActionsOf(parsed.frames)) == EmptyPings(fs)
  {
    ParseSerialized(fs, []);
    assert SerializeAll(fs) + [] == SerializeAll(fs) && fs + [] == fs;
    ActionsMeaning(fs);
  }

  /** The client's own heartbeat is never answered: it carries an object, and no object prints to nothing. */
  lemma HeartbeatUnanswered<J(!new)>(json: ClientCodec.Json<J>, flags: byte)
    requires json.Faithful()
    ensures ActionOf(ClientCodec.Encoded(json, ClientCodec.ClientFrame(PROTOCOL_VERSION, PINGPONG, flags, json.empty))) == Ignore
  {
    assert json.dump(json.empty) != [];
  }
}
